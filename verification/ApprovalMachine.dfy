/**
 * Tool approvals: hooks block until a tap, an HTTP reply, a shutdown or their
 * deadline answers them. Look-ups in the table and the use of what was found are
 * separate steps, because the lock is released in between.
 */
module ApprovalMachine {
  import opened Text

  datatype Response = Response(decision: string, requestId: string, responder: string)

  datatype Cause = Answered | Expired | SendFailure

  /** Where the hook's thread stands. */
  datatype Phase =
    | SendingCard
    | Top                      // about to compute the remaining time
    | Blocked(until: real)     // in event.wait
    | Finishing(response: Response, cause: Cause, at: real)  // wait() is over, entry not yet popped
    | Returned(response: Response, cause: Cause, at: real)

  datatype Slot = Slot(
    id: string, created: real, timeout: real, deadline: real, answer: Option<Response>, handle: Option<int>,
    phase: Phase,
    written: seq<Response>,    // every answer written, oldest first
    floors: set<real>)         // deadlines asked for: at creation and by each snooze

  /** Work that has looked a slot up and not yet used it. */
  datatype Task =
    | Resolver(ref: nat, response: Response)
    | Snoozer(ref: nat, id: string, seconds: real)
    | Reposter(ref: nat, id: string)

  /** A re-post that sleeps; `early` when the hook was still waiting as it was set. */
  datatype Sleeper = Sleeper(id: string, ref: nat, due: real, early: bool)

  datatype State = State(
    table: map<string, nat>, slots: seq<Slot>, tasks: multiset<Task>, sleepers: multiset<Sleeper>, clock: real)

  datatype Event =
    | Hook(id: string, timeout: real)
    | CardSent(ref: nat, handle: Option<int>)
    | CardFailed(ref: nat)
    | Poll(ref: nat)
    | Wake(ref: nat)
    | Leave(ref: nat)
    | Tap(id: string, action: string, responder: string)
    | HttpReply(id: string, decision: string, responder: string)
    | Snooze(id: string, seconds: real)
    | Apply(task: Task, handle: Option<int>)
    | RepostDue(sleeper: Sleeper)
    | Shutdown
    | Tick(seconds: real)

  const POLL_SECONDS := 5.0
  const SNOOZE_BUFFER := 30.0

  function Max(a: real, b: real): real
  {
    if a < b then b else a
  }

  function Min(a: real, b: real): real
  {
    if a < b then a else b
  }

  // ----- what happens to one slot ------------------------------------------

  function NewSlot(id: string, now: real, timeout: real): Slot
  {
    Slot(id, now, timeout, now + timeout, None, None, SendingCard, [], {now + timeout})
  }

  function Resolved(slot: Slot, response: Response): Slot
  {
    slot.(answer := Some(response), written := slot.written + [response])
  }

  /** `extend_by`: never shortens. */
  function Extended(slot: Slot, now: real, seconds: real): Slot
  {
    slot.(deadline := Max(slot.deadline, now + seconds), floors := slot.floors + {now + seconds})
  }

  /** One evaluation of the loop head of `wait`. */
  function Polled(slot: Slot, now: real): Slot
  {
    var remaining := slot.deadline - now;
    if remaining <= 0.0
    then slot.(phase := Finishing(Response("timeout", slot.id, ""), Expired, now))
    else slot.(phase := Blocked(now + Min(remaining, POLL_SECONDS)))
  }

  /** The event is set, or the chunk of waiting is over, or the thread waits on. */
  function Woken(slot: Slot, now: real): Slot
    requires slot.phase.Blocked?
  {
    if slot.answer.Some? then slot.(phase := Finishing(slot.answer.value, Answered, now))
    else if slot.phase.until <= now then slot.(phase := Top)
    else slot
  }

  // ----- the machine ---------------------------------------------------------

  predicate InFlight(slot: Slot)
  {
    !slot.phase.Returned?
  }

  predicate Has(s: State, ref: nat)
  {
    ref < |s.slots|
  }

  function ActionDecision(action: string): Option<string>
  {
    if action == "approve" then Some("allow") else if action == "reject" then Some("deny") else None
  }

  function Deliver(s: State, id: string, response: Response): State
  {
    if id !in s.table then s
    else s.(tasks := s.tasks + multiset{Resolver(s.table[id], response)})
  }

  function ShutdownResponse(id: string): Response
  {
    Response("ask", id, "daemon:shutdown")
  }

  function Cancellers(table: map<string, nat>): set<Task>
  {
    set id | id in table :: Resolver(table[id], ShutdownResponse(id))
  }

  function ApplyTask(s: State, task: Task, handle: Option<int>): State
    requires Has(s, task.ref)
  {
    var t := s.(tasks := s.tasks - multiset{task});
    var slot := s.slots[task.ref];
    match task
    case Resolver(ref, response) => t.(slots := s.slots[ref := Resolved(slot, response)])
    case Snoozer(ref, id, seconds) =>
      t.(slots := s.slots[ref := Extended(slot, s.clock, seconds + SNOOZE_BUFFER)],
         sleepers := s.sleepers + multiset{Sleeper(id, ref, s.clock + seconds, !Done(slot))})
    case Reposter(ref, id) =>
      if handle.Some? && id in s.table && s.table[id] == ref then t.(slots := s.slots[ref := slot.(handle := handle)])
      else t
  }

  function Step(s: State, e: Event): State
  {
    match e
    case Hook(id, timeout) =>
      s.(slots := s.slots + [NewSlot(id, s.clock, timeout)], table := s.table[id := |s.slots|])
    case CardSent(ref, handle) =>
      if Has(s, ref) && s.slots[ref].phase.SendingCard?
      then s.(slots := s.slots[ref := s.slots[ref].(phase := Top,
                handle := if handle.Some? then handle else s.slots[ref].handle)])
      else s
    case CardFailed(ref) =>
      if Has(s, ref) && s.slots[ref].phase.SendingCard?
      then s.(slots := s.slots[ref := s.slots[ref].(phase :=
                Returned(Response("ask", s.slots[ref].id, "daemon:send-failed"), SendFailure, s.clock))],
              table := s.table - {s.slots[ref].id})
      else s
    case Poll(ref) =>
      if Has(s, ref) && s.slots[ref].phase.Top? then s.(slots := s.slots[ref := Polled(s.slots[ref], s.clock)]) else s
    case Wake(ref) =>
      if Has(s, ref) && s.slots[ref].phase.Blocked?
      then s.(slots := s.slots[ref := Woken(s.slots[ref], s.clock)])
      else s
    case Leave(ref) =>
      if Has(s, ref) && s.slots[ref].phase.Finishing?
      then s.(slots := s.slots[ref := s.slots[ref].(phase :=
                Returned(s.slots[ref].phase.response, s.slots[ref].phase.cause, s.slots[ref].phase.at))],
              table := s.table - {s.slots[ref].id})
      else s
    case Tap(id, action, responder) =>
      (match ActionDecision(action)
       case Some(decision) => Deliver(s, id, Response(decision, id, responder))
       case None => s)
    case HttpReply(id, decision, responder) => if id == "" then s else Deliver(s, id, Response(decision, id, responder))
    case Snooze(id, seconds) =>
      if id in s.table && seconds >= 0.0 then s.(tasks := s.tasks + multiset{Snoozer(s.table[id], id, seconds)}) else s
    case Apply(task, handle) => if task in s.tasks && Has(s, task.ref) then ApplyTask(s, task, handle) else s
    case RepostDue(sleeper) =>
      if sleeper !in s.sleepers || s.clock < sleeper.due then s
      else
        var t := s.(sleepers := s.sleepers - multiset{sleeper});
        if sleeper.id in s.table then t.(tasks := s.tasks + multiset{Reposter(s.table[sleeper.id], sleeper.id)}) else t
    case Shutdown => s.(table := map[], tasks := s.tasks + multiset(Cancellers(s.table)))
    case Tick(seconds) => if seconds >= 0.0 then s.(clock := s.clock + seconds) else s
  }

  const INITIAL := State(map[], [], multiset{}, multiset{}, 0.0)

  function Run(events: seq<Event>): State
  {
    if events == [] then INITIAL else Step(Run(events[..|events| - 1]), events[|events| - 1])
  }

  // ----- inbound replies ---------------------------------------------------------

  datatype Routed = ToBus | ToApprovals(event: Event) | NotForApprovals

  /** `_dispatch_inbound_reply`: views and snoozes first, then the bus cards, then the approvals. */
  function Route(busCards: set<string>, id: string, action: string, responder: string, snooze: real): Routed
  {
    if action == "details" then NotForApprovals
    else if action == "snooze" then ToApprovals(Snooze(id, snooze))
    else if id in busCards then ToBus
    else ToApprovals(Tap(id, action, responder))
  }

  /** What a reply does to the approvals. */
  function Inbound(s: State, routed: Routed): State
  {
    if routed.ToApprovals? then Step(s, routed.event) else s
  }

  // ----- safety ----------------------------------------------------------------

  predicate Done(slot: Slot)
  {
    slot.phase.Finishing? || slot.phase.Returned?
  }

  predicate SlotInv(slot: Slot, clock: real)
  {
    && slot.created <= clock
    && slot.created + slot.timeout in slot.floors && slot.deadline in slot.floors
    && (forall f :: f in slot.floors ==> f <= slot.deadline)
    && (slot.answer == if slot.written == [] then None else Some(slot.written[|slot.written| - 1]))
    && (Done(slot) ==>
          && slot.phase.response.requestId == slot.id && slot.phase.at <= clock
          && (slot.phase.cause == Answered ==> slot.phase.response in slot.written)
          && (slot.phase.cause == Expired ==> slot.phase.response.decision == "timeout")
          && (slot.phase.cause == SendFailure ==> slot.phase.response.decision == "ask"))
    && (forall r :: r in slot.written ==> r.requestId == slot.id)
  }

  predicate TaskInv(task: Task, slots: seq<Slot>)
  {
    && task.ref < |slots|
    && (task.Resolver? ==> task.response.requestId == slots[task.ref].id)
    && (!task.Resolver? ==> task.id == slots[task.ref].id)
    && (task.Snoozer? ==> task.seconds >= 0.0)
  }

  predicate SleeperInv(z: Sleeper, slots: seq<Slot>)
  {
    && z.ref < |slots| && z.id == slots[z.ref].id
    && z.due + SNOOZE_BUFFER in slots[z.ref].floors
    && (z.early && Done(slots[z.ref]) && slots[z.ref].phase.cause == Expired ==>
          slots[z.ref].phase.at >= z.due + SNOOZE_BUFFER)
  }

  predicate EntryInv(id: string, ref: nat, slots: seq<Slot>)
  {
    ref < |slots| && slots[ref].id == id && InFlight(slots[ref])
  }

  ghost predicate Inv(s: State)
  {
    && (forall i :: 0 <= i < |s.slots| ==> SlotInv(s.slots[i], s.clock))
    && (forall id :: id in s.table ==> EntryInv(id, s.table[id], s.slots))
    && (forall k :: k in s.tasks ==> TaskInv(k, s.slots))
    && (forall z :: z in s.sleepers ==> SleeperInv(z, s.slots))
  }

  /** How a single slot may change: forward, keeping its identity and its deadlines. */
  predicate Advances(a: Slot, b: Slot)
  {
    && b.id == a.id && b.created == a.created && b.timeout == a.timeout
    && a.deadline <= b.deadline && a.floors <= b.floors
    && a.written <= b.written
    && (a.phase.Returned? ==> b.phase == a.phase)
    && (a.phase.Finishing? ==> Done(b) && b.phase.response == a.phase.response
                               && b.phase.cause == a.phase.cause && b.phase.at == a.phase.at)
  }

  lemma ApplyAdvances(s: State, task: Task, handle: Option<int>, i: nat)
    requires Has(s, task.ref) && i < |s.slots|
    ensures var t := ApplyTask(s, task, handle); i < |t.slots| && Advances(s.slots[i], t.slots[i]) && t.clock == s.clock
  {
  }

  lemma PhaseAdvances(a: Slot, phase: Phase, handle: Option<int>)
    requires !Done(a) || (a.phase.Finishing? && phase == Returned(a.phase.response, a.phase.cause, a.phase.at))
    ensures Advances(a, a.(phase := phase, handle := handle)) && Advances(a, a)
  {
  }

  lemma WaitingAdvances(a: Slot, now: real)
    requires !Done(a)
    ensures Advances(a, Polled(a, now)) && (a.phase.Blocked? ==> Advances(a, Woken(a, now)))
  {
  }

  lemma StepAdvances(s: State, e: Event, i: nat)
    requires i < |s.slots|
    ensures i < |Step(s, e).slots| && Advances(s.slots[i], Step(s, e).slots[i])
    ensures s.clock <= Step(s, e).clock
  {
    assert Advances(s.slots[i], s.slots[i]);
    hide ApplyTask, Cancellers, Advances, Polled, Woken, Deliver;
    match e {
      case Apply(task, handle) => if Has(s, task.ref) { ApplyAdvances(s, task, handle, i); }
      case CardSent(ref, handle) =>
        if Has(s, ref) && s.slots[ref].phase.SendingCard? {
          PhaseAdvances(s.slots[ref], Top, if handle.Some? then handle else s.slots[ref].handle);
        }
      case CardFailed(ref) =>
        if Has(s, ref) && s.slots[ref].phase.SendingCard? {
          var r := Returned(Response("ask", s.slots[ref].id, "daemon:send-failed"), SendFailure, s.clock);
          PhaseAdvances(s.slots[ref], r, s.slots[ref].handle);
        }
      case Poll(ref) => if Has(s, ref) && s.slots[ref].phase.Top? { WaitingAdvances(s.slots[ref], s.clock); }
      case Wake(ref) => if Has(s, ref) && s.slots[ref].phase.Blocked? { WaitingAdvances(s.slots[ref], s.clock); }
      case Leave(ref) =>
        if Has(s, ref) && s.slots[ref].phase.Finishing? {
          var p := s.slots[ref].phase;
          PhaseAdvances(s.slots[ref], Returned(p.response, p.cause, p.at), s.slots[ref].handle);
        }
      case Tap(id, action, responder) => DeliveryLeavesSlots(s, id);
      case HttpReply(id, decision, responder) => DeliveryLeavesSlots(s, id);
      case _ =>
    }
  }

  lemma DeliveryLeavesSlots(s: State, id: string)
    ensures forall r :: Deliver(s, id, r).slots == s.slots && Deliver(s, id, r).clock == s.clock
                        && Deliver(s, id, r).table == s.table
  {
  }
}
