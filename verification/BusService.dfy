/**
 * `BusWatcher` and `BusSurfaceService` as objects that change their fields in
 * place. Every method is proved to perform one step of the machine, and a whole
 * scan, with taps at its awaits, to be a run of it.
 */
module BusService {
  import opened Text
  import opened SurfacePolicy
  import opened Provenance
  import opened BusMachine
  import opened BusLimits

  /** What outlives the process: the workspace files, the confirmation ledger, the clock. */
  class Host {
    var active: map<string, BusMessage>
    var acks: map<string, Ack>
    var surfaced: map<string, real>
    var quarantine: map<string, BusMessage>
    var ledger: Ledger
    var clock: real
    var names: set<string>   // file names used so far; others do not use one twice

    ghost function Contents(): Files
      reads this
    {
      Files(active, acks, surfaced, quarantine)
    }

    /** `quarantine_message`; the caller has seen the file. */
    method Quarantine(m: BusMessage) returns (target: string)
      requires m.stem in active
      modifies this`active, this`quarantine
      ensures target == QuarantineName(old(quarantine).Keys, m.stem) && target !in old(quarantine)
      ensures active == old(active) - {m.stem}
      ensures quarantine == old(quarantine)[target := old(active)[m.stem]]
    {
      target := FindQuarantineName(quarantine.Keys, m.stem);
      QuarantineNameIsFree(quarantine.Keys, m.stem);
      quarantine := quarantine[target := active[m.stem]];
      active := active - {m.stem};
    }

    /** `_save_state`: prune, then replace the file. */
    method SaveState(state: map<string, real>)
      modifies this`surfaced
      ensures surfaced == Pruned(state, clock)
    {
      var cutoff := clock - PRUNE_SECONDS;
      surfaced := map k | k in state && state[k] >= cutoff :: state[k];
    }

    /** What agents, people and time do to the workspace; a tap is not of this kind. */
    method Happen(e: Event)
      requires Ambient(e)
      modifies this`active, this`acks, this`ledger, this`clock, this`names
      ensures acks == (if e.AckElsewhere? then old(acks)[e.stem := e.ack] else old(acks))
      ensures active == (if e.Arrive? && e.msg.stem !in old(names) then old(active)[e.msg.stem := e.msg]
                         else if e.Archive? then old(active) - {e.stem} else old(active))
      ensures ledger == (if e.Confirm? then old(ledger) + {e.record} else old(ledger))
      ensures clock == (if e.Tick? && e.seconds >= 0.0 then old(clock) + e.seconds else old(clock))
      ensures names == (if e.Arrive? then old(names) + {e.msg.stem} else old(names))
    {
      match e {
        case Arrive(m) =>
          if m.stem !in names {
            active := active[m.stem := m];
            names := names + {m.stem};
          }
        case Archive(stem) => active := active - {stem};
        case AckElsewhere(stem, ack) => acks := acks[stem := ack];
        case Confirm(record) => ledger := ledger + {record};
        case Tick(seconds) => if seconds >= 0.0 { clock := clock + seconds; }
        case _ =>
      }
    }
  }

  /** Events of the surroundings. */
  predicate Ambient(e: Event)
  {
    e.Arrive? || e.Archive? || e.AckElsewhere? || e.Confirm? || e.Tick?
  }

  class BusSurfaceService {
    const host: Host
    var up: bool
    var pending: map<string, BusMessage>
    // the watcher's scan coroutine
    var scanning: bool
    var seen: map<string, real>
    var now: real
    var overrides: Overrides
    var todo: seq<BusMessage>
    var changed: bool
    var at: Await
    ghost var log: History

    ghost function View(): State
      reads this, host
    {
      State(host.Contents(), up, pending,
            if scanning then Scan(seen, now, overrides, todo, changed, at) else NoScan,
            host.ledger, host.clock, log)
    }

    constructor (host: Host)
      ensures this.host == host && !up && pending == map[] && !scanning && log == INITIAL.log
    {
      this.host := host;
      up, pending, scanning := false, map[], false;
      seen, now, overrides, todo, changed, at := map[], 0.0, map[], [], false, Between;
      log := INITIAL.log;
    }

    /** The host's record of used names is the machine's. */
    ghost predicate NamesKnown()
      reads this, host
    {
      host.names == log.arrived.Keys
    }

    // ----- lifecycle ---------------------------------------------------------

    predicate ListsAll(listing: seq<BusMessage>)
      reads host
    {
      ListsActive(listing, host.active) && forall k :: k in host.active ==> host.active[k] in listing
    }

    /** `_recover_undecided_pendings`: one pass over the active messages, with the overrides of the moment. */
    method RecoverUndecidedPendings(listing: seq<BusMessage>, over: Overrides) returns (recovered: nat)
      requires ListsAll(listing) && DistinctStems(listing)
      requires forall k :: k in host.active ==> host.active[k].stem == k
      modifies this`pending
      ensures pending == Recovered(host.Contents()) + old(pending)
      ensures recovered == |Recovered(host.Contents())|
    {
      hide Decide, Interactive, Recovered, Gathered;
      ghost var files := host.Contents();
      recovered := 0;
      NothingGathered(files);
      for i := 0 to |listing|
        invariant pending == Gathered(files, listing[..i]) + old(pending)
        invariant recovered == |Gathered(files, listing[..i])|
      {
        var msg := listing[i];
        OneMoreGathered(files, listing, i, old(pending));
        if msg.stem !in host.surfaced {
          continue;
        }
        if msg.stem in host.acks {
          continue;
        }
        InteractiveUnderAllOverrides(msg, over);
        var decision := Decide(msg, over);
        if !decision.interactive {
          continue;
        }
        if msg.stem !in pending {
          pending := pending[msg.stem := msg];
        }
        recovered := recovered + 1;
      }
      assert listing[..|listing|] == listing;
      GatheredAreTheRecovered(files, listing);
    }

    lemma NothingGathered(files: Files)
      ensures Gathered(files, []) == map[] && forall p: map<string, BusMessage> :: Gathered(files, []) + p == p
    {
    }

    /** One turn of the recovery loop; `setdefault` keeps an entry that is there. */
    lemma OneMoreGathered(files: Files, listing: seq<BusMessage>, i: nat, there: map<string, BusMessage>)
      requires i < |listing| && DistinctStems(listing)
      ensures var m := listing[i];
              var g, h := Gathered(files, listing[..i]), Gathered(files, listing[..i + 1]);
              if Returns(files, m)
              then |h| == |g| + 1 && h + there == (if m.stem in g + there then g + there else (g + there)[m.stem := m])
              else h == g
    {
      var init := listing[..i + 1];
      assert init[..i] == listing[..i] && init[i] == listing[i];
      NewStem(files, init);
      GatheredStep(files, init);
      hide Returns, Gathered;
      SetDefault(Gathered(files, listing[..i]), there, listing[i].stem, listing[i]);
    }

    lemma GatheredStep(files: Files, listing: seq<BusMessage>)
      requires listing != []
      ensures var n := |listing| - 1;
              var g := Gathered(files, listing[..n]);
              Gathered(files, listing) == if Returns(files, listing[n]) then g[listing[n].stem := listing[n]] else g
    {
      hide Returns;
    }

    lemma SetDefault(g: map<string, BusMessage>, there: map<string, BusMessage>, k: string, m: BusMessage)
      requires k !in g
      ensures |g[k := m]| == |g| + 1
      ensures g[k := m] + there == if k in g + there then g + there else (g + there)[k := m]
    {
    }

    method Start(listing: seq<BusMessage>, over: Overrides)
      requires !up && !scanning && ListsAll(listing) && DistinctStems(listing)
      requires forall k :: k in host.active ==> host.active[k].stem == k
      modifies this`up, this`pending, this`log
      ensures View() == Step(old(View()), Event.Start)
    {
      log := Step(View(), Event.Start).log;
      var recovered := RecoverUndecidedPendings(listing, over);
      up := true;
    }

    method Stop()
      modifies this`up, this`pending
      ensures View() == Step(old(View()), Event.Stop)
    {
      pending := map[];
      up := false;
    }

    // ----- the scan, from one await to the next -------------------------------

    method BeginScan(listing: seq<BusMessage>, over: Overrides)
      requires up && !scanning && ListsActive(listing, host.active)
      modifies this
      ensures View() == Step(old(View()), Event.BeginScan(listing, over))
      ensures scanning && todo == listing && at == Between && pending == old(pending) && up && log == old(log)
    {
      hide ProcessNext, AnswerTap, StartUp, Save, Record, Decide;
      overrides := over;
      seen := host.surfaced;
      now := host.clock;
      changed := false;
      todo := listing;
      at := Between;
      scanning := true;
    }

    /** `on_approval` up to its await. */
    method OnApproval(m: BusMessage)
      modifies this`pending, this`at
      ensures pending == old(pending)[m.stem := m] && at == SendingCard(m)
    {
      pending := pending[m.stem := m];
      at := SendingCard(m);
    }

    /** The policy's answer for one message, up to the await of its send. */
    method Surface(m: BusMessage)
      requires scanning && at == Between
      modifies this
      ensures View() == Dispatch(old(View()), m, Decide(m, old(overrides)))
      ensures up == old(up) && scanning && todo == old(todo)
    {
      var decision := Decide(m, overrides);
      log := Dispatch(View(), m, decision).log;
      if !decision.surface {
        seen := seen[m.stem := now];
        changed := true;
      } else if decision.interactive {
        OnApproval(m);
      } else {
        at := SendingInfo(m);
      }
    }

    method ScanNext(moveWorks: bool)
      requires scanning && at == Between && todo != []
      modifies this, host`active, host`quarantine
      ensures View() == Step(old(View()), Event.ScanNext(moveWorks))
      ensures up == old(up) && (scanning ==> todo == old(todo)[1..])
    {
      hide AnswerTap, StartUp, Save, Record;
      ProcessCases(View(), moveWorks);
      hide Decide, QuarantineName, VerifyProvenance, Privileged, ProcessNext, Dispatch;
      var m := todo[0];
      if m.stem in seen {
        todo := todo[1..];
      } else if Privileged(m) && !VerifyProvenance(m, host.active, host.ledger) {
        if moveWorks && m.stem in host.active {
          var target := host.Quarantine(m);
          todo := todo[1..];
          at := Alerting;
          log := log.(movedTo := log.movedTo[m.stem := target]);
        } else {
          scanning := false;
        }
      } else {
        todo := todo[1..];
        Surface(m);
      }
    }

    /** The cases of one turn. */
    lemma ProcessCases(s: State, moveWorks: bool)
      requires At(s, Between) && s.frame.todo != []
      ensures var m := s.frame.todo[0];
              var t := s.(frame := s.frame.(todo := s.frame.todo[1..]));
              Step(s, Event.ScanNext(moveWorks))
              == if m.stem in s.frame.seen then t
                 else if Privileged(m) && !VerifyProvenance(m, s.files.active, s.ledger) then
                   if moveWorks && m.stem in s.files.active then MoveToQuarantine(t, m) else s.(frame := NoScan)
                 else Dispatch(t, m, Decide(m, s.frame.overrides))
    {
      hide Decide, QuarantineName, VerifyProvenance, Privileged, Dispatch, MoveToQuarantine;
    }

    /** The awaited alert, card or notice comes back. */
    method Resume(sent: bool)
      requires scanning && at != Between
      modifies this
      ensures View() == Step(old(View()), if old(at) == Alerting then AlertDone else if sent then Sent else SendFailed)
      ensures scanning && up == old(up) && todo == old(todo) && at == Between
    {
      hide ProcessNext, AnswerTap, StartUp, Save, Decide;
      ghost var next := Step(View(), if at == Alerting then AlertDone else if sent then Sent else SendFailed);
      if at != Alerting {
        if sent {
          seen := seen[at.msg.stem := now];
          changed := true;
        } else if at.SendingCard? {
          pending := pending - {at.msg.stem};
        }
      }
      at := Between;
      log := next.log;
    }

    method EndScan(saveWorks: bool)
      requires scanning && at == Between && todo == []
      modifies this`scanning, this`log, host`surfaced
      ensures View() == Step(old(View()), Event.EndScan(saveWorks))
      ensures !scanning && up == old(up)
    {
      hide ProcessNext, AnswerTap, StartUp, Record;
      ghost var next := Step(View(), Event.EndScan(saveWorks));
      if changed && saveWorks {
        host.SaveState(seen);
      }
      scanning := false;
      log := next.log;
    }

    // ----- taps ------------------------------------------------------------------

    method WriteAckFile(stem: string, ack: Ack)
      modifies host`acks
      ensures host.acks == old(host.acks)[stem := ack]
    {
      host.acks := host.acks[stem := ack];
    }

    method WriteMessageFile(m: BusMessage)
      modifies host`active, host`names
      ensures host.active == old(host.active)[m.stem := m] && host.names == old(host.names) + {m.stem}
    {
      host.active := host.active[m.stem := m];
      host.names := host.names + {m.stem};
    }

    /** `_record_bus_acknowledge`, or `record_decision` for a proposal: ack, follow-up file, pop. */
    method RecordDecision(m: BusMessage, ack: Ack, reply: Reply, draft: Draft, writes: Writes)
      modifies this`pending, this`log, host`acks, host`active, host`names
      ensures old(NamesKnown()) ==> NamesKnown()
      ensures View() == Conclude(old(View()), m, ack, reply.requestId, Follower(m, ack, reply.comment, draft), writes)
    {
      hide Follower, Conclude;
      ghost var next := Conclude(View(), m, ack, reply.requestId, Follower(m, ack, reply.comment, draft), writes);
      ConcludeFields(View(), m, ack, reply.requestId, Follower(m, ack, reply.comment, draft), writes);
      if writes == NothingWritten {
        return;
      }
      WriteAckFile(m.stem, ack);
      var follower := Follower(m, ack, reply.comment, draft);
      if follower.Some? {
        if writes == OnlyTheAck {
          log := next.log;
          return;
        }
        WriteMessageFile(follower.value);
      }
      pending := pending - {reply.requestId};
      log := next.log;
    }

    /** What concluding changes, field by field. */
    lemma ConcludeFields(s: State, m: BusMessage, ack: Ack, id: string, follower: Option<BusMessage>, writes: Writes)
      ensures var t := Conclude(s, m, ack, id, follower, writes);
              var acked := writes != NothingWritten;
              var closed := writes == AllWritten || (acked && follower.None?);
              && t == s.(files := t.files, pending := t.pending, log := t.log)
              && t.files == s.files.(active := t.files.active, acks := t.files.acks)
              && t.files.acks == (if acked then s.files.acks[m.stem := ack] else s.files.acks)
              && t.pending == (if closed then s.pending - {id} else s.pending)
              && t.files.active == (if closed && follower.Some?
                                    then s.files.active[follower.value.stem := follower.value]
                                    else s.files.active)
              && t.log.arrived.Keys == (if closed && follower.Some? then s.log.arrived.Keys + {follower.value.stem}
                                        else s.log.arrived.Keys)
              && (!acked ==> t == s)
    {
    }

    /** `dispatch`: false when the request id is not a bus card. */
    method DispatchReply(reply: Reply, draft: Draft, writes: Writes) returns (handled: bool)
      requires up
      modifies this`pending, this`log, host`acks, host`active, host`names
      ensures old(NamesKnown()) ==> NamesKnown()
      ensures View() == Step(old(View()), Tap(reply, draft, writes))
      ensures handled <==> reply.requestId in old(pending)
      ensures up == old(up) && scanning == old(scanning) && at == old(at) && todo == old(todo)
    {
      hide ProcessNext, StartUp, Save, Record, DecisionFile, Follower, Conclude, ReplyFile;
      ghost var next := Step(View(), Tap(reply, draft, writes));
      if reply.requestId !in pending {
        return false;
      }
      var m := pending[reply.requestId];
      if reply.action == "comment" {
        if Strip(reply.comment) != "" && writes == AllWritten {
          WriteMessageFile(ReplyFile(m, draft));
        }
        log := next.log;
        return true;
      }
      var ack := Decided(m, reply.action);
      if ack.Some? {
        RecordDecision(m, ack.value, reply, draft, writes);
      }
      return true;
    }

    // ----- a whole scan ------------------------------------------------------------

    lemma RunExtends(s: State, events: seq<Event>, e: Event)
      ensures Run(s, events + [e]) == Step(Run(s, events), e)
    {
      assert (events + [e])[..|events|] == events;
    }

    /** Something happens around the daemon, or a tap comes in. */
    method Meanwhile(e: Event)
      requires up && NamesKnown() && (Ambient(e) || e.Tap?)
      modifies this`pending, this`log, host`active, host`acks, host`ledger, host`clock, host`names
      ensures View() == Step(old(View()), e) && NamesKnown()
      ensures up && scanning == old(scanning) && at == old(at) && todo == old(todo)
    {
      if e.Tap? {
        var handled := DispatchReply(e.reply, e.draft, e.writes);
      } else {
        ghost var next := Step(View(), e);
        host.Happen(e);
        log := next.log;
      }
    }

    /**
     * `_scan_once` from its listing to its save, with whatever happens at each
     * await: what it does is one scan of a run of the machine, and it comes to an
     * end, at the end of its listing or where a move to quarantine raised.
     */
    method ScanOnce(listing: seq<BusMessage>, over: Overrides, meanwhile: seq<seq<Event>>,
                    moves: seq<bool>, sends: seq<bool>, saveWorks: bool) returns (ghost events: seq<Event>)
      requires up && !scanning && NamesKnown() && ListsActive(listing, host.active)
      requires |meanwhile| == |moves| == |sends| == |listing|
      requires forall i, j :: 0 <= i < |meanwhile| && 0 <= j < |meanwhile[i]| ==>
                 Ambient(meanwhile[i][j]) || meanwhile[i][j].Tap?
      modifies this, host
      ensures View() == Run(old(View()), events)
      ensures !scanning && up && NamesKnown()
      ensures |events| >= 2 && events[0] == Event.BeginScan(listing, over) && SameScan(events[1..|events| - 1])
      ensures var u := Run(old(View()), events[..|events| - 1]);
        if events[|events| - 1].ScanNext? then u.frame.Scan?
        else events[|events| - 1] == Event.EndScan(saveWorks) && At(u, Between) && u.frame.todo == []
    {
      hide ProcessNext, AnswerTap, StartUp, Save, Record, Decide;
      ghost var start := View();
      BeginScan(listing, over);
      events := [Event.BeginScan(listing, over)];
      assert Run(start, []) == start;
      RunExtends(start, [], Event.BeginScan(listing, over));
      ScanStepsUseNoName(start, Event.BeginScan(listing, over));
      assert [] + [Event.BeginScan(listing, over)] == events;
      var i := 0;
      while todo != []
        invariant scanning && up && at == Between && NamesKnown()
        invariant i <= |listing| && |todo| == |listing| - i
        invariant View() == Run(start, events)
        invariant |events| >= 1 && events[0] == Event.BeginScan(listing, over) && SameScan(events[1..])
        decreases |todo|
      {
        ghost var before := View();
        ScanNext(moves[i]);
        RunExtends(start, events, Event.ScanNext(moves[i]));
        ScanStepsUseNoName(before, Event.ScanNext(moves[i]));
        ghost var shorter := events;
        events := events + [Event.ScanNext(moves[i])];
        assert events[..|events| - 1] == shorter && events[1..|events| - 1] == shorter[1..];
        if !scanning {
          return;
        }
        assert SameScan(events[1..]) by { StillSameScan(shorter, Event.ScanNext(moves[i])); }
        if at != Between {
          events := WhileAwaiting(start, events, meanwhile[i]);
          ghost var back := if at == Alerting then AlertDone else if sends[i] then Sent else SendFailed;
          before := View();
          Resume(sends[i]);
          RunExtends(start, events, back);
          ScanStepsUseNoName(before, back);
          StillSameScan(events, back);
          events := events + [back];
        }
        i := i + 1;
      }
      ghost var before := View();
      EndScan(saveWorks);
      RunExtends(start, events, Event.EndScan(saveWorks));
      ScanStepsUseNoName(before, Event.EndScan(saveWorks));
      ghost var shorter := events;
      events := events + [Event.EndScan(saveWorks)];
      assert events[..|events| - 1] == shorter && events[1..|events| - 1] == shorter[1..];
    }

    lemma StillSameScan(events: seq<Event>, e: Event)
      requires events != [] && SameScan(events[1..]) && !e.BeginScan? && !e.EndScan?
      ensures SameScan((events + [e])[1..])
    {
      assert (events + [e])[1..] == events[1..] + [e];
    }

    /** What happens at one await, in order. */
    method WhileAwaiting(ghost start: State, ghost events: seq<Event>, happenings: seq<Event>)
      returns (ghost longer: seq<Event>)
      requires up && scanning && at != Between && NamesKnown() && events != [] && SameScan(events[1..])
      requires View() == Run(start, events)
      requires forall j :: 0 <= j < |happenings| ==> Ambient(happenings[j]) || happenings[j].Tap?
      modifies this`pending, this`log, host`active, host`acks, host`ledger, host`clock, host`names
      ensures View() == Run(start, longer) && NamesKnown()
      ensures longer != [] && longer[0] == events[0] && SameScan(longer[1..])
      ensures up && scanning && at == old(at) && todo == old(todo)
    {
      longer := events;
      for j := 0 to |happenings|
        invariant up && scanning && at == old(at) && todo == old(todo) && NamesKnown()
        invariant View() == Run(start, longer)
        invariant longer != [] && longer[0] == events[0] && SameScan(longer[1..])
      {
        Meanwhile(happenings[j]);
        RunExtends(start, longer, happenings[j]);
        StillSameScan(longer, happenings[j]);
        longer := longer + [happenings[j]];
      }
    }
  }
}
