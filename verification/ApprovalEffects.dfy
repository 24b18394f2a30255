/**
 * What each event does to a waiting hook, and what a snooze is for: the hook does
 * not expire before the card was posted again and had its thirty seconds.
 */
module ApprovalEffects {
  import opened Text
  import opened ApprovalMachine
  import opened ApprovalSafety

  /** Nothing but the one slot is different. */
  predicate OnlySlot(s: State, t: State, ref: nat)
    requires ref < |s.slots|
  {
    |t.slots| == |s.slots| && t == s.(slots := s.slots[ref := t.slots[ref]])
  }

  // ----- snooze ----------------------------------------------------------------------

  /** A snooze looks the entry up; what it found is extended later. */
  lemma SnoozeIsQueued(s: State, id: string, seconds: real)
    ensures Step(s, Snooze(id, seconds))
            == if id in s.table && seconds >= 0.0
               then s.(tasks := s.tasks + multiset{Snoozer(s.table[id], id, seconds)}) else s
  {
    hide ApplyTask, Cancellers;
  }

  /** The deadline becomes thirty seconds past the re-post at least, and is never shortened; one re-post is set. */
  lemma SnoozeExtends(s: State, ref: nat, id: string, seconds: real, handle: Option<int>)
    requires Snoozer(ref, id, seconds) in s.tasks && ref < |s.slots|
    ensures var t := Step(s, Apply(Snoozer(ref, id, seconds), handle));
            && |t.slots| == |s.slots| && t.table == s.table && t.clock == s.clock
            && t.slots[ref] == s.slots[ref].(deadline := t.slots[ref].deadline, floors := t.slots[ref].floors)
            && t.slots[ref].deadline >= s.clock + seconds + 30.0 && t.slots[ref].deadline >= s.slots[ref].deadline
            && t.slots[ref].deadline in {s.slots[ref].deadline, s.clock + seconds + 30.0}
            && t.slots[ref].floors == s.slots[ref].floors + {s.clock + seconds + 30.0}
            && (forall i :: 0 <= i < |s.slots| && i != ref ==> t.slots[i] == s.slots[i])
            && t.tasks == s.tasks - multiset{Snoozer(ref, id, seconds)}
            && t.sleepers == s.sleepers + multiset{Sleeper(id, ref, s.clock + seconds,
                 !s.slots[ref].phase.Finishing? && !s.slots[ref].phase.Returned?)}
  {
  }

  /** The hook has not expired before `floor`. */
  predicate HoldsUntil(s: State, ref: nat, floor: real)
  {
    && ref < |s.slots| && floor in s.slots[ref].floors
    && (Done(s.slots[ref]) && s.slots[ref].phase.cause == Expired ==> s.slots[ref].phase.at >= floor)
  }

  lemma StepHolds(s: State, e: Event, ref: nat, floor: real)
    requires Inv(s) && HoldsUntil(s, ref, floor)
    ensures HoldsUntil(Step(s, e), ref, floor)
  {
    StepAdvances(s, e, ref);
    var t := Step(s, e);
    assert SlotInv(s.slots[ref], s.clock);
    hide Step, Inv;
    if Done(t.slots[ref]) && t.slots[ref].phase.cause == Expired && !Done(s.slots[ref]) {
      OnlyPollExpires(s, e, ref);
      PollStamps(s, ref);
    }
  }

  lemma PollStamps(s: State, ref: nat)
    requires ref < |s.slots| && !Done(s.slots[ref]) && Done(Step(s, Poll(ref)).slots[ref])
    ensures Step(s, Poll(ref)).slots[ref].phase.at == s.clock
  {
    hide ApplyTask, Cancellers;
  }

  lemma {:induction false} RunHolds(events: seq<Event>, more: seq<Event>, ref: nat, floor: real)
    requires HoldsUntil(Run(events), ref, floor)
    ensures HoldsUntil(Run(events + more), ref, floor)
    decreases |more|
  {
    hide Run, Step, HoldsUntil, Inv;
    if more == [] {
      assert events + more == events;
    } else {
      var shorter := more[..|more| - 1];
      RunHolds(events, shorter, ref, floor);
      var e := more[|more| - 1];
      assert events + more == (events + shorter) + [e];
      RunSnoc(events + shorter, e);
      RunKeepsInv(events + shorter);
      StepHolds(Run(events + shorter), e, ref, floor);
    }
  }

  lemma FloorsBoundDeadlines(events: seq<Event>, ref: nat)
    requires ref < |Run(events).slots|
    ensures forall f :: f in Run(events).slots[ref].floors ==> f <= Run(events).slots[ref].deadline
  {
    RunKeepsInv(events);
    assert SlotInv(Run(events).slots[ref], Run(events).clock);
  }

  /**
   * Once a snooze has extended a hook that was still waiting, the hook's deadline
   * stays at least thirty seconds past the re-post over every continuation, and no
   * poll makes the hook expire before then.
   */
  lemma SnoozeHolds(events: seq<Event>, ref: nat, id: string, seconds: real, handle: Option<int>, more: seq<Event>)
    requires var s := Run(events);
             Snoozer(ref, id, seconds) in s.tasks && ref < |s.slots| && !Done(s.slots[ref])
    ensures var s := Run(events);
            var w := Run(events + [Apply(Snoozer(ref, id, seconds), handle)] + more);
            && ref < |w.slots| && w.slots[ref].deadline >= s.clock + seconds + 30.0
            && (Done(w.slots[ref]) && w.slots[ref].phase.cause == Expired ==>
                  w.slots[ref].phase.at >= s.clock + seconds + 30.0)
  {
    hide Step, Run, Inv;
    var s := Run(events);
    var e := Apply(Snoozer(ref, id, seconds), handle);
    SnoozeExtends(s, ref, id, seconds, handle);
    RunSnoc(events, e);
    RunHolds(events + [e], more, ref, s.clock + seconds + 30.0);
    FloorsBoundDeadlines(events + [e] + more, ref);
  }

  /** A snooze of a waiting hook through its entry, whatever happens between the look-up and its use. */
  lemma SnoozedHookWaits(events: seq<Event>, id: string, seconds: real, between: seq<Event>, more: seq<Event>)
    requires id in Run(events).table && seconds >= 0.0
    requires var s := Run(events + [Snooze(id, seconds)] + between);
             var ref := Run(events).table[id];
             Snoozer(ref, id, seconds) in s.tasks && ref < |s.slots| && !Done(s.slots[ref])
    ensures var ref := Run(events).table[id];
            var w := Run(events + [Snooze(id, seconds)] + between + [Apply(Snoozer(ref, id, seconds), None)] + more);
            && ref < |w.slots| && w.slots[ref].deadline >= Run(events).clock + seconds + 30.0
            && (Done(w.slots[ref]) && w.slots[ref].phase.cause == Expired ==>
                  w.slots[ref].phase.at >= Run(events).clock + seconds + 30.0)
  {
    hide Run, Step;
    var mid := events + [Snooze(id, seconds)] + between;
    ClockAdvances(events, [Snooze(id, seconds)] + between);
    assert events + ([Snooze(id, seconds)] + between) == mid;
    SnoozeHolds(mid, Run(events).table[id], id, seconds, None, more);
  }

  lemma {:induction false} ClockAdvances(events: seq<Event>, more: seq<Event>)
    ensures Run(events).clock <= Run(events + more).clock
    decreases |more|
  {
    hide Run, Step;
    if more == [] {
      assert events + more == events;
    } else {
      var shorter := more[..|more| - 1];
      ClockAdvances(events, shorter);
      assert events + more == (events + shorter) + [more[|more| - 1]];
      RunSnoc(events + shorter, more[|more| - 1]);
      ClockStep(Run(events + shorter), more[|more| - 1]);
    }
  }

  lemma ClockStep(s: State, e: Event)
    ensures s.clock <= Step(s, e).clock
  {
    hide Cancellers;
  }

  /** When the sleep is over the entry is looked up again: the card goes to whatever hook has the id then. */
  lemma RepostIsQueued(s: State, z: Sleeper)
    requires z in s.sleepers
    ensures Step(s, RepostDue(z)) ==
            if s.clock < z.due then s
            else s.(sleepers := s.sleepers - multiset{z},
                    tasks := if z.id in s.table then s.tasks + multiset{Reposter(s.table[z.id], z.id)} else s.tasks)
  {
    hide ApplyTask, Cancellers;
  }

  /** The new card's handle is kept only while the entry is still the one that was looked up. */
  lemma RepostIsStored(s: State, ref: nat, id: string, handle: Option<int>)
    requires Reposter(ref, id) in s.tasks && ref < |s.slots|
    ensures var t := Step(s, Apply(Reposter(ref, id), handle));
            && t == s.(slots := t.slots, tasks := s.tasks - multiset{Reposter(ref, id)})
            && t.slots == if handle.Some? && id in s.table && s.table[id] == ref
                          then s.slots[ref := s.slots[ref].(handle := handle)] else s.slots
  {
  }

  lemma SnoozeApplied(s: State, ref: nat, id: string, seconds: real)
    requires id in s.table && s.table[id] == ref && ref < |s.slots| && seconds >= 0.0
    ensures var a := Step(Step(s, Snooze(id, seconds)), Apply(Snoozer(ref, id, seconds), None));
            && |a.slots| == |s.slots| && a.table == s.table && a.clock == s.clock && a.tasks == s.tasks
            && a.slots[ref].phase == s.slots[ref].phase && a.slots[ref].answer == s.slots[ref].answer
            && a.slots[ref].deadline >= s.clock + seconds + 30.0
            && a.sleepers == s.sleepers + multiset{Sleeper(id, ref, s.clock + seconds, !Done(s.slots[ref]))}
  {
    hide Step;
    SnoozeIsQueued(s, id, seconds);
    var q := Step(s, Snooze(id, seconds));
    assert q.tasks - multiset{Snoozer(ref, id, seconds)} == s.tasks;
    SnoozeExtends(q, ref, id, seconds, None);
  }

  /**
   * A snooze from beginning to end: a waiting hook is extended, its card is sent
   * again when the time is up, the new card replaces the old, and the hook waits on.
   */
  lemma SnoozeReposts(s: State, ref: nat, id: string, seconds: real, waited: real, card: int)
    requires id in s.table && s.table[id] == ref && ref < |s.slots| && seconds >= 0.0 && waited >= seconds
    ensures var a := Step(Step(s, Snooze(id, seconds)), Apply(Snoozer(ref, id, seconds), None));
            var z := Sleeper(id, ref, s.clock + seconds, !Done(s.slots[ref]));
            var c := Step(Step(Step(a, Tick(waited)), RepostDue(z)), Apply(Reposter(ref, id), Some(card)));
            && ref < |c.slots| && c.slots[ref].handle == Some(card)
            && c.slots[ref].phase == s.slots[ref].phase && c.slots[ref].answer == s.slots[ref].answer
            && c.slots[ref].deadline >= s.clock + seconds + 30.0
            && c.table == s.table && c.tasks == s.tasks && c.sleepers == s.sleepers && c.clock == s.clock + waited
  {
    hide Step, Done;
    var z := Sleeper(id, ref, s.clock + seconds, !Done(s.slots[ref]));
    SnoozeApplied(s, ref, id, seconds);
    var a := Step(Step(s, Snooze(id, seconds)), Apply(Snoozer(ref, id, seconds), None));
    TickPasses(a, waited);
    assert a.sleepers - multiset{z} == s.sleepers;
    CardComesBack(Step(a, Tick(waited)), z, card);
  }

  lemma CardComesBack(s: State, z: Sleeper, card: int)
    requires z in s.sleepers && z.due <= s.clock && z.id in s.table && s.table[z.id] == z.ref && z.ref < |s.slots|
    ensures var b := Step(s, RepostDue(z));
            var c := Step(b, Apply(Reposter(z.ref, z.id), Some(card)));
            c == s.(sleepers := s.sleepers - multiset{z},
                    slots := s.slots[z.ref := s.slots[z.ref].(handle := Some(card))])
  {
    hide Step;
    RepostIsQueued(s, z);
    var b := Step(s, RepostDue(z));
    RepostIsStored(b, z.ref, z.id, Some(card));
    assert b.tasks - multiset{Reposter(z.ref, z.id)} == s.tasks;
  }

  lemma TickPasses(s: State, seconds: real)
    ensures Step(s, Tick(seconds)) == if seconds >= 0.0 then s.(clock := s.clock + seconds) else s
  {
    hide ApplyTask, Cancellers;
  }

  // ----- the life of a hook ----------------------------------------------------------------

  /** A new hook has its whole timeout before it, no answer, and the table entry of its id. */
  lemma HookEnters(s: State, id: string, timeout: real)
    ensures var t := Step(s, Hook(id, timeout));
            && |t.slots| == |s.slots| + 1 && t.slots[..|s.slots|] == s.slots
            && t.table == s.table[id := |s.slots|] && t == s.(slots := t.slots, table := t.table)
            && var h := t.slots[|s.slots|];
               && h.id == id && h.created == s.clock && h.timeout == timeout && h.deadline == s.clock + timeout
               && h.answer == None && h.handle == None && h.phase == SendingCard && h.written == []
  {
    hide ApplyTask, Cancellers;
  }

  /** A sent card lets the hook wait, with the handle if the transport gave one. */
  lemma CardIsSent(s: State, ref: nat, handle: Option<int>)
    requires ref < |s.slots| && s.slots[ref].phase == SendingCard
    ensures var t := Step(s, CardSent(ref, handle));
            && OnlySlot(s, t, ref)
            && t.slots[ref] == s.slots[ref].(phase := Top, handle := t.slots[ref].handle)
            && t.slots[ref].handle == if handle == None then s.slots[ref].handle else handle
  {
    hide ApplyTask, Cancellers;
  }

  /** A card that cannot be sent leaves the decision to the terminal and frees the id. */
  lemma CardFails(s: State, ref: nat)
    requires ref < |s.slots| && s.slots[ref].phase == SendingCard
    ensures var t := Step(s, CardFailed(ref));
            && |t.slots| == |s.slots|
            && t == s.(slots := s.slots[ref := t.slots[ref]], table := s.table - {s.slots[ref].id})
            && t.slots[ref] == s.slots[ref].(phase := t.slots[ref].phase) && t.slots[ref].phase.Returned?
            && t.slots[ref].phase.response == Response("ask", s.slots[ref].id, "daemon:send-failed")
            && t.slots[ref].phase.cause == SendFailure && t.slots[ref].phase.at == s.clock
  {
    hide ApplyTask, Cancellers;
  }

  /** A poll at or after the deadline times the hook out; before it the hook waits, for five seconds at most. */
  lemma PollEffect(s: State, ref: nat)
    requires ref < |s.slots| && s.slots[ref].phase == Top
    ensures var t := Step(s, Poll(ref));
            && OnlySlot(s, t, ref) && t.slots[ref] == s.slots[ref].(phase := t.slots[ref].phase)
            && if s.clock >= s.slots[ref].deadline then
                 t.slots[ref].phase == Finishing(Response("timeout", s.slots[ref].id, ""), Expired, s.clock)
               else
                 && t.slots[ref].phase.Blocked? && s.clock < t.slots[ref].phase.until <= s.clock + 5.0
                 && t.slots[ref].phase.until <= s.slots[ref].deadline
                 && t.slots[ref].phase.until in {s.slots[ref].deadline, s.clock + 5.0}
  {
    hide ApplyTask, Cancellers;
  }

  /** A blocked hook takes an answer as soon as there is one, else looks at its deadline when its chunk is over. */
  lemma WakeEffect(s: State, ref: nat)
    requires ref < |s.slots| && s.slots[ref].phase.Blocked?
    ensures var t := Step(s, Wake(ref));
            && OnlySlot(s, t, ref) && t.slots[ref] == s.slots[ref].(phase := t.slots[ref].phase)
            && t.slots[ref].phase ==
                 match s.slots[ref].answer
                 case Some(r) => Finishing(r, Answered, s.clock)
                 case None => if s.clock < s.slots[ref].phase.until then s.slots[ref].phase else Top
  {
    hide ApplyTask, Cancellers;
  }

  /** A finished hook returns what it has and frees the id. */
  lemma LeaveEffect(s: State, ref: nat)
    requires ref < |s.slots| && s.slots[ref].phase.Finishing?
    ensures var t := Step(s, Leave(ref));
            var p := s.slots[ref].phase;
            && |t.slots| == |s.slots|
            && t == s.(slots := s.slots[ref := t.slots[ref]], table := s.table - {s.slots[ref].id})
            && t.slots[ref] == s.slots[ref].(phase := Returned(p.response, p.cause, p.at))
  {
    hide ApplyTask, Cancellers;
  }

  /** A step out of turn changes nothing. */
  lemma OutOfTurn(s: State, ref: nat, handle: Option<int>)
    ensures var phase := if ref < |s.slots| then Some(s.slots[ref].phase) else None;
            && (phase != Some(SendingCard) ==> Step(s, CardSent(ref, handle)) == s && Step(s, CardFailed(ref)) == s)
            && (phase != Some(Top) ==> Step(s, Poll(ref)) == s)
            && ((phase.Some? ==> !phase.value.Blocked?) ==> Step(s, Wake(ref)) == s)
            && ((phase.Some? ==> !phase.value.Finishing?) ==> Step(s, Leave(ref)) == s)
  {
    hide ApplyTask, Cancellers;
  }

  // ----- answers ------------------------------------------------------------------------------

  /** Approve allows, reject denies, any other action answers nothing; an unknown id answers nothing. */
  lemma TapIsQueued(s: State, id: string, action: string, responder: string)
    ensures Step(s, Tap(id, action, responder)) ==
            if id in s.table && (action == "approve" || action == "reject")
            then s.(tasks := s.tasks + multiset{Resolver(s.table[id],
                      Response(if action == "approve" then "allow" else "deny", id, responder))})
            else s
  {
    assert "approve"[0] != "reject"[0];
    hide ApplyTask, Cancellers;
  }

  lemma ReplyIsQueued(s: State, id: string, decision: string, responder: string)
    ensures Step(s, HttpReply(id, decision, responder)) ==
            if id == "" || id !in s.table then s
            else s.(tasks := s.tasks + multiset{Resolver(s.table[id], Response(decision, id, responder))})
  {
    hide ApplyTask, Cancellers;
  }

  lemma AnswerIsWritten(s: State, ref: nat, r: Response, handle: Option<int>)
    requires Resolver(ref, r) in s.tasks && ref < |s.slots|
    ensures Step(s, Apply(Resolver(ref, r), handle)) ==
            s.(tasks := s.tasks - multiset{Resolver(ref, r)},
               slots := s.slots[ref := s.slots[ref].(answer := Some(r), written := s.slots[ref].written + [r])])
  {
    hide Cancellers;
  }

  /** A reply over HTTP reaches the hook with the decision it names, whatever that is. */
  lemma HttpReplyReachesTheHook(s: State, id: string, decision: string, responder: string, handle: Option<int>)
    requires Inv(s)
    ensures var t := Step(s, HttpReply(id, decision, responder));
            if id == "" || id !in s.table then t == s
            else
              var ref := s.table[id];
              var r := Response(decision, id, responder);
              var u := Step(t, Apply(Resolver(ref, r), handle));
              && ref < |s.slots| && OnlySlot(s, u, ref)
              && u.slots[ref] == s.slots[ref].(answer := Some(r), written := s.slots[ref].written + [r])
              && (s.slots[ref].phase.Blocked? ==>
                    Step(u, Wake(ref)).slots[ref].phase == Finishing(r, Answered, s.clock))
  {
    ReplyIsQueued(s, id, decision, responder);
    if id != "" && id in s.table {
      assert EntryInv(id, s.table[id], s.slots);
      hide Inv, Step;
      var ref, r := s.table[id], Response(decision, id, responder);
      var t := Step(s, HttpReply(id, decision, responder));
      assert t.tasks - multiset{Resolver(ref, r)} == s.tasks;
      AnswerIsWritten(t, ref, r, handle);
      WakeIfBlocked(Step(t, Apply(Resolver(ref, r), handle)), ref);
    }
  }

  lemma WakeIfBlocked(u: State, ref: nat)
    requires ref < |u.slots| && u.slots[ref].answer.Some?
    ensures u.slots[ref].phase.Blocked? ==>
              Step(u, Wake(ref)).slots[ref].phase == Finishing(u.slots[ref].answer.value, Answered, u.clock)
  {
    if u.slots[ref].phase.Blocked? {
      WakeEffect(u, ref);
    }
    hide Step;
  }

  /** Details and snoozes come before the bus cards, and only what is none of these is an answer to a hook. */
  lemma RepliesAreRouted(s: State, busCards: set<string>, id: string, action: string, responder: string, snooze: real)
    ensures Inbound(s, Route(busCards, id, action, responder, snooze)) ==
            if action == "details" then s
            else if action == "snooze" then Step(s, Snooze(id, snooze))
            else if id in busCards then s
            else Step(s, Tap(id, action, responder))
  {
    assert "details"[0] != "snooze"[0];
    hide Step;
  }

  /** A shutdown empties the table and queues the answer `ask` for each entry. */
  lemma ShutdownEmptiesTheTable(s: State)
    ensures var t := Step(s, Shutdown);
            && t == s.(table := map[], tasks := t.tasks)
            && (forall id :: id in s.table ==> Resolver(s.table[id], Response("ask", id, "daemon:shutdown")) in t.tasks)
            && (forall k :: k in s.tasks ==> k in t.tasks)
  {
  }
}
