/** Decisions per card, provenance, spacing of surfacings; then the theorems about whole runs. */
module BusPromises {
  import opened Text
  import opened SurfacePolicy
  import opened Provenance
  import opened BusMachine
  import opened BusSafety

  // ----- one card, at most one decision ------------------------------------

  predicate WithinCards(s: State, k: string)
  {
    |Decisions(s, k)| + (if k in s.pending then 1 else 0) <= Cards(s, k)
  }

  ghost predicate CountInv(s: State)
  {
    && (forall k :: WithinCards(s, k))
    && (forall k :: k in s.files.acks <==> Decisions(s, k) != [] || k in s.log.torn || k in s.log.elsewhere)
  }

  lemma ConcludeKeepsCounts(s: State, m: BusMessage, ack: Ack, follower: Option<BusMessage>, writes: Writes)
    requires CountInv(s) && m.stem in s.pending
    ensures CountInv(Conclude(s, m, ack, m.stem, follower, writes))
  {
    var t := WriteAck(s, m.stem, ack);
    var u := if follower.Some? then WriteMessage(t, follower.value) else t;
    WriteKeepsTable(s, t, u, follower);
    ClosingKeepsCounts(s, u, m.stem, ack);
    TearingKeepsCounts(s, t, m.stem, ack);
    hide WriteMessage, WriteAck, CountInv;
  }

  lemma WriteKeepsTable(s: State, t: State, u: State, follower: Option<BusMessage>)
    requires t.pending == s.pending && t.log == s.log
    requires u == if follower.Some? then WriteMessage(t, follower.value) else t
    ensures u.files.acks == t.files.acks && u.pending == s.pending && u.log.cards == s.log.cards
    ensures u.log.decisions == s.log.decisions && u.log.torn == s.log.torn && u.log.elsewhere == s.log.elsewhere
  {
  }

  lemma ClosingKeepsCounts(s: State, u: State, stem: string, ack: Ack)
    requires CountInv(s) && stem in s.pending && u.files.acks == s.files.acks[stem := ack] && u.pending == s.pending
    requires u.log.cards == s.log.cards && u.log.decisions == s.log.decisions
    requires u.log.torn == s.log.torn && u.log.elsewhere == s.log.elsewhere
    ensures CountInv(u.(pending := u.pending - {stem},
                        log := u.log.(decisions := u.log.decisions[stem := Decisions(u, stem) + [ack]])))
  {
    assert WithinCards(s, stem);
    var v := u.(pending := u.pending - {stem},
                log := u.log.(decisions := u.log.decisions[stem := Decisions(u, stem) + [ack]]));
    forall k ensures WithinCards(v, k) { assert WithinCards(s, k); }
  }

  lemma TearingKeepsCounts(s: State, t: State, stem: string, ack: Ack)
    requires CountInv(s) && t == WriteAck(s, stem, ack)
    ensures CountInv(t.(log := t.log.(torn := t.log.torn + {stem})))
  {
    var v := t.(log := t.log.(torn := t.log.torn + {stem}));
    forall k ensures WithinCards(v, k) { assert WithinCards(s, k); }
  }

  lemma WriteMessageKeepsCounts(s: State, m: BusMessage)
    requires CountInv(s)
    ensures CountInv(WriteMessage(s, m))
  {
    forall k ensures WithinCards(WriteMessage(s, m), k) { assert WithinCards(s, k); }
  }

  lemma TapKeepsCounts(s: State, reply: Reply, draft: Draft, writes: Writes)
    requires CountInv(s) && FilesInv(s)
    ensures CountInv(AnswerTap(s, reply, draft, writes))
  {
    if reply.requestId in s.pending {
      var m := s.pending[reply.requestId];
      if reply.action == "comment" {
        WriteMessageKeepsCounts(s, ReplyFile(m, draft));
      } else if Decided(m, reply.action).Some? {
        var ack := Decided(m, reply.action).value;
        ConcludeKeepsCounts(s, m, ack, Follower(m, ack, reply.comment, draft), writes);
      }
    }
  }

  lemma StartKeepsCounts(s: State)
    requires CountInv(s) && CardInv(s) && s.frame.NoScan?
    ensures CountInv(StartUp(s))
  {
    var t := StartUp(s);
    forall k ensures WithinCards(t, k) {
      assert WithinCards(s, k);
      if k in t.pending && k !in s.pending {
        assert Answerable(s, k);
      }
    }
  }

  lemma DispatchKeepsCounts(s: State, m: BusMessage, d: Decision)
    requires CountInv(s) && s.frame.Scan?
    ensures CountInv(Dispatch(s, m, d))
  {
    forall k ensures WithinCards(Dispatch(s, m, d), k) { assert WithinCards(s, k); }
  }

  lemma ProcessKeepsCounts(s: State, moveWorks: bool)
    requires CountInv(s) && s.frame.Scan? && s.frame.todo != []
    ensures CountInv(ProcessNext(s, moveWorks))
  {
    var m := s.frame.todo[0];
    var t := s.(frame := s.frame.(todo := s.frame.todo[1..]));
    forall k ensures WithinCards(t, k) { assert WithinCards(s, k); }
    if m.stem in s.frame.seen || (Privileged(m) && !VerifyProvenance(m, s.files.active, s.ledger)) {
      forall k ensures WithinCards(ProcessNext(s, moveWorks), k) { assert WithinCards(s, k); }
    } else {
      DispatchKeepsCounts(t, m, Decide(m, t.frame.overrides));
    }
  }

  lemma CountsCarryOver(s: State, t: State)
    requires CountInv(s) && t.log.cards == s.log.cards && t.log.decisions == s.log.decisions
    requires t.log.torn == s.log.torn && t.log.elsewhere == s.log.elsewhere
    requires t.files.acks == s.files.acks && t.pending.Keys <= s.pending.Keys
    ensures CountInv(t)
  {
    forall k ensures WithinCards(t, k) { assert WithinCards(s, k); }
  }

  lemma AckElsewhereKeepsCounts(s: State, stem: string, ack: Ack)
    requires CountInv(s)
    ensures CountInv(Step(s, AckElsewhere(stem, ack)))
  {
    var t := Step(s, AckElsewhere(stem, ack));
    forall k ensures WithinCards(t, k) { assert WithinCards(s, k); }
  }

  lemma ScanNextKeepsCounts(s: State, moveWorks: bool)
    requires CountInv(s)
    ensures CountInv(Step(s, ScanNext(moveWorks)))
  {
    hide ProcessNext, CountInv;
    if At(s, Between) && s.frame.todo != [] {
      ProcessKeepsCounts(s, moveWorks);
    }
  }

  lemma StartStepKeepsCounts(s: State)
    requires CountInv(s) && CardInv(s)
    ensures CountInv(Step(s, Start))
  {
    hide StartUp, CountInv, CardInv;
    if s.frame.NoScan? {
      StartKeepsCounts(s);
    }
  }

  lemma TapStepKeepsCounts(s: State, reply: Reply, draft: Draft, writes: Writes)
    requires CountInv(s) && FilesInv(s)
    ensures CountInv(Step(s, Tap(reply, draft, writes)))
  {
    hide AnswerTap, CountInv, FilesInv;
    TapKeepsCounts(s, reply, draft, writes);
  }

  /** Steps that register no card and record no decision. */
  lemma OtherStepsKeepCounts(s: State, e: Event)
    requires CountInv(s) && !e.ScanNext? && !e.Tap? && !e.Start? && !e.AckElsewhere?
    ensures CountInv(Step(s, e))
  {
    hide ProcessNext, AnswerTap, StartUp, CountInv, ListsActive;
    CountsCarryOver(s, Step(s, e));
  }

  lemma StepKeepsCounts(s: State, e: Event)
    requires CountInv(s) && CardInv(s) && FilesInv(s)
    ensures CountInv(Step(s, e))
  {
    hide Step, CountInv, CardInv, FilesInv;
    match e {
      case ScanNext(moveWorks) => ScanNextKeepsCounts(s, moveWorks);
      case Tap(reply, draft, writes) => TapStepKeepsCounts(s, reply, draft, writes);
      case Start => StartStepKeepsCounts(s);
      case AckElsewhere(stem, ack) => AckElsewhereKeepsCounts(s, stem, ack);
      case _ => OtherStepsKeepCounts(s, e);
    }
  }

  // ----- only confirmed privileged messages are acted on --------------------

  ghost predicate Entitled(m: BusMessage, log: History, ledger: Ledger)
  {
    && Snapshot(m, log.arrived, log.clobbered)
    && (Privileged(m) && m.stem !in log.clobbered ==> OnRecord(m, m.raw, ledger))
  }

  ghost predicate ActInv(s: State)
  {
    && (forall m :: m in s.log.acted ==> Entitled(m, s.log, s.ledger))
    && s.log.synced <= s.log.acted
    && (forall k :: k in s.pending ==> s.pending[k] in s.log.acted)
    && (Sending(s) ==> s.frame.at.msg in s.log.acted)
    && (forall k :: k in Seen(s) && k in s.files.active && k !in s.log.clobbered ==> s.files.active[k] in s.log.acted)
  }

  lemma ActInvCarriesOver(s: State, t: State)
    requires ActInv(s) && CardInv(s)
    requires t.log.acted == s.log.acted && t.log.synced == s.log.synced && s.ledger <= t.ledger
    requires s.log.arrived.Keys <= t.log.arrived.Keys && s.log.clobbered <= t.log.clobbered
    requires forall k :: k in s.log.arrived ==> t.log.arrived[k] == s.log.arrived[k]
    requires forall k :: k in t.pending ==> k in s.pending && t.pending[k] == s.pending[k]
    requires Sending(t) ==> Sending(s) && t.frame.at.msg == s.frame.at.msg
    requires forall k :: k in Seen(t) ==> k in Seen(s)
    requires forall k :: k in Seen(s) && k in t.files.active && k !in t.log.clobbered ==>
               k in s.files.active && t.files.active[k] == s.files.active[k]
    ensures ActInv(t)
  {
    forall m | m in t.log.acted ensures Entitled(m, t.log, t.ledger) {
      assert Entitled(m, s.log, s.ledger);
    }
  }

  lemma DispatchKeepsActs(s: State, m: BusMessage, d: Decision)
    requires ActInv(s) && FilesInv(s) && s.frame.Scan? && Entitled(m, s.log, s.ledger)
    ensures ActInv(Dispatch(s, m, d))
  {
    var t := Dispatch(s, m, d);
    forall x | x in t.log.acted ensures Entitled(x, t.log, t.ledger) {
      assert x == m || Entitled(x, s.log, s.ledger);
    }
  }

  lemma ProcessKeepsActs(s: State, moveWorks: bool)
    requires ActInv(s) && CardInv(s) && FilesInv(s) && At(s, Between) && s.frame.todo != []
    ensures ActInv(ProcessNext(s, moveWorks))
  {
    hide Interactive, Decide, Confirmed, QuarantineName;
    var m := s.frame.todo[0];
    VerifiedExactly(m, s.files.active, s.ledger);
    var t := s.(frame := s.frame.(todo := s.frame.todo[1..]));
    ActInvCarriesOver(s, t);
    if m.stem in s.frame.seen {
    } else if Privileged(m) && !VerifyProvenance(m, s.files.active, s.ledger) {
      ActInvCarriesOver(s, ProcessNext(s, moveWorks));
    } else {
      assert Snapshot(m, s.log.arrived, s.log.clobbered);
      DispatchKeepsActs(t, m, Decide(m, t.frame.overrides));
    }
  }

  lemma SeenIsEntitled(s: State, k: string)
    requires ActInv(s) && FilesInv(s) && k in Seen(s) && k in s.files.active
    ensures Entitled(s.files.active[k], s.log, s.ledger)
  {
    hide Interactive;
  }

  lemma StartKeepsActs(s: State)
    requires ActInv(s) && CardInv(s) && FilesInv(s) && s.frame.NoScan?
    ensures ActInv(StartUp(s))
  {
    var t := StartUp(s);
    forall k | k in s.files.active && Undecided(s.files, k) ensures Entitled(s.files.active[k], s.log, s.ledger) {
      SeenIsEntitled(s, k);
    }
    hide Interactive, CardInv, FilesInv, Entitled;
    StartAddsActs(s, t);
  }

  lemma StartAddsActs(s: State, t: State)
    requires ActInv(s) && s.frame.NoScan? && t == StartUp(s)
    requires forall k :: k in s.files.active && Undecided(s.files, k) ==>
               Entitled(s.files.active[k], s.log, s.ledger)
    ensures ActInv(t)
  {
    hide Interactive;
    forall m | m in t.log.acted ensures Entitled(m, t.log, t.ledger) {
      if m in s.log.acted { assert Entitled(m, s.log, s.ledger); }
    }
  }

  lemma WriteMessageKeepsActs(s: State, m: BusMessage)
    requires ActInv(s) && CardInv(s)
    ensures ActInv(WriteMessage(s, m))
  {
    ActInvCarriesOver(s, WriteMessage(s, m));
  }

  lemma BookkeepingKeepsActs(s: State, pending: Messages, acks: map<string, Ack>, log: History)
    requires ActInv(s) && forall k :: k in pending ==> k in s.pending && pending[k] == s.pending[k]
    requires log.arrived == s.log.arrived && log.clobbered == s.log.clobbered
    requires log.acted == s.log.acted && log.synced == s.log.synced
    ensures ActInv(s.(pending := pending, files := s.files.(acks := acks), log := log))
  {
    var t := s.(pending := pending, files := s.files.(acks := acks), log := log);
    forall m | m in t.log.acted ensures Entitled(m, t.log, t.ledger) {
      assert Entitled(m, s.log, s.ledger);
    }
  }

  lemma ConcludeKeepsActs(s: State, m: BusMessage, ack: Ack, id: string, follower: Option<BusMessage>, writes: Writes)
    requires ActInv(s) && CardInv(s)
    ensures ActInv(Conclude(s, m, ack, id, follower, writes))
  {
    var t := WriteAck(s, m.stem, ack);
    BookkeepingKeepsActs(s, s.pending, t.files.acks, s.log);
    BookkeepingKeepsActs(s, s.pending, t.files.acks, s.log.(torn := s.log.torn + {m.stem}));
    var u := if follower.Some? then WriteMessage(t, follower.value) else t;
    assert ActInv(u) by {
      if follower.Some? {
        WriteMessageKeepsActs(s, follower.value);
        var w := WriteMessage(s, follower.value);
        BookkeepingKeepsActs(w, w.pending, t.files.acks, w.log);
        assert u == w.(files := w.files.(acks := t.files.acks));
      }
    }
    BookkeepingKeepsActs(u, u.pending - {id}, u.files.acks,
                         u.log.(decisions := u.log.decisions[m.stem := Decisions(u, m.stem) + [ack]]));
  }

  lemma TapKeepsActs(s: State, reply: Reply, draft: Draft, writes: Writes)
    requires ActInv(s) && CardInv(s)
    ensures ActInv(AnswerTap(s, reply, draft, writes))
  {
    if reply.requestId in s.pending {
      var m := s.pending[reply.requestId];
      if reply.action == "comment" {
        WriteMessageKeepsActs(s, ReplyFile(m, draft));
      } else if Decided(m, reply.action).Some? {
        var ack := Decided(m, reply.action).value;
        ConcludeKeepsActs(s, m, ack, reply.requestId, Follower(m, ack, reply.comment, draft), writes);
      }
    }
  }

  lemma SentKeepsActs(s: State)
    requires ActInv(s) && FilesInv(s) && Sending(s)
    ensures ActInv(Record(s, s.frame.at.msg))
  {
    var t := Record(s, s.frame.at.msg);
    forall m | m in t.log.acted ensures Entitled(m, t.log, t.ledger) {
      assert Entitled(m, s.log, s.ledger);
    }
  }

  lemma ArriveKeepsActs(s: State, m: BusMessage)
    requires ActInv(s) && CardInv(s) && FilesInv(s)
    ensures ActInv(Step(s, Arrive(m)))
  {
    hide ActInv, Interactive;
    ActInvCarriesOver(s, Step(s, Arrive(m)));
  }

  lemma EndScanKeepsActs(s: State)
    requires ActInv(s) && CardInv(s) && s.frame.Scan?
    ensures ActInv(Save(s).(frame := NoScan)) && ActInv(s.(frame := NoScan))
  {
    ActInvCarriesOver(s, Save(s).(frame := NoScan));
    ActInvCarriesOver(s, s.(frame := NoScan));
  }

  lemma SendFailedKeepsActs(s: State)
    requires ActInv(s) && CardInv(s)
    ensures ActInv(Step(s, SendFailed))
  {
    ActInvCarriesOver(s, Step(s, SendFailed));
  }

  lemma ScanNextKeepsActs(s: State, moveWorks: bool)
    requires ActInv(s) && CardInv(s) && FilesInv(s)
    ensures ActInv(Step(s, ScanNext(moveWorks)))
  {
    hide ProcessNext, ActInv, CardInv, FilesInv;
    if At(s, Between) && s.frame.todo != [] {
      ProcessKeepsActs(s, moveWorks);
    }
  }

  lemma TapStepKeepsActs(s: State, reply: Reply, draft: Draft, writes: Writes)
    requires ActInv(s) && CardInv(s)
    ensures ActInv(Step(s, Tap(reply, draft, writes)))
  {
    hide AnswerTap, ActInv, CardInv;
    TapKeepsActs(s, reply, draft, writes);
  }

  lemma ScanEndsKeepActs(s: State, saveWorks: bool)
    requires ActInv(s) && CardInv(s) && FilesInv(s)
    ensures ActInv(Step(s, Sent)) && ActInv(Step(s, EndScan(saveWorks)))
  {
    hide Record, Save, ActInv, CardInv, FilesInv;
    if Sending(s) {
      SentKeepsActs(s);
    }
    if s.frame.Scan? {
      EndScanKeepsActs(s);
    }
  }

  lemma StartStepKeepsActs(s: State)
    requires ActInv(s) && CardInv(s) && FilesInv(s)
    ensures ActInv(Step(s, Start))
  {
    hide StartUp, ActInv, CardInv, FilesInv;
    if s.frame.NoScan? {
      StartKeepsActs(s);
    }
  }

  /** Steps of the surroundings. */
  lemma SurroundingsKeepActs(s: State, e: Event)
    requires ActInv(s) && CardInv(s) && (e.Archive? || e.AckElsewhere? || e.Confirm? || e.Tick?)
    ensures ActInv(Step(s, e))
  {
    hide ActInv, CardInv;
    ActInvCarriesOver(s, Step(s, e));
  }

  /** Steps that stop, abandon or begin a scan. */
  lemma LifecycleKeepsActs(s: State, e: Event)
    requires ActInv(s) && CardInv(s) && (e.Stop? || e.CancelScan? || e.Crash? || e.BeginScan? || e.AlertDone?)
    ensures ActInv(Step(s, e))
  {
    hide ActInv, ListsActive, SendingInv, Answerable;
    ActInvCarriesOver(s, Step(s, e));
  }

  lemma StepKeepsActs(s: State, e: Event)
    requires ActInv(s) && CardInv(s) && FilesInv(s)
    ensures ActInv(Step(s, e))
  {
    hide Step, ActInv, CardInv, FilesInv;
    match e {
      case ScanNext(moveWorks) => ScanNextKeepsActs(s, moveWorks);
      case Tap(reply, draft, writes) => TapStepKeepsActs(s, reply, draft, writes);
      case Start => StartStepKeepsActs(s);
      case Sent => ScanEndsKeepActs(s, true);
      case EndScan(saveWorks) => ScanEndsKeepActs(s, saveWorks);
      case Arrive(m) => ArriveKeepsActs(s, m);
      case SendFailed => SendFailedKeepsActs(s);
      case Archive(_) => SurroundingsKeepActs(s, e);
      case AckElsewhere(_, _) => SurroundingsKeepActs(s, e);
      case Confirm(_) => SurroundingsKeepActs(s, e);
      case Tick(_) => SurroundingsKeepActs(s, e);
      case _ => LifecycleKeepsActs(s, e);
    }
  }

  // ----- surfacings of one message are a week apart --------------------------

  predicate Spaced(times: seq<real>)
  {
    forall i, j :: 0 <= i < j < |times| ==> times[j] - times[i] > PRUNE_SECONDS
  }

  function Last(times: seq<real>): real
    requires times != []
  {
    times[|times| - 1]
  }

  predicate RecordOk(r: seq<real>, surfaced: Option<real>, clock: real)
  {
    && r != [] && Spaced(r) && Last(r) <= clock
    && (surfaced.Some? ==> Last(r) == surfaced.value)
    && (surfaced.None? ==> clock - Last(r) > PRUNE_SECONDS)
  }

  function Lookup(m: map<string, real>, k: string): Option<real>
  {
    if k in m then Some(m[k]) else None
  }

  ghost predicate RecordsOk(recorded: map<string, seq<real>>, surfaced: map<string, real>, clock: real)
  {
    && (forall k :: k in recorded ==> RecordOk(recorded[k], Lookup(surfaced, k), clock))
    && (forall k :: k in surfaced ==> k in recorded)
  }

  /** A scan's copy of the surfaced state is the file plus entries at the scan's own time. */
  ghost predicate CopyOk(f: Frame, surfaced: map<string, real>)
  {
    f.Scan? ==>
      && (forall k :: k in surfaced ==> k in f.seen && f.seen[k] == surfaced[k])
      && (forall k :: k in f.seen && k !in surfaced ==> f.seen[k] == f.now)
  }

  ghost predicate RecordInv(s: State)
  {
    && RecordsOk(s.log.recorded, s.files.surfaced, s.clock)
    && CopyOk(s.frame, s.files.surfaced)
    && (s.frame.Scan? ==> s.frame.now <= s.clock && RecordsOk(s.log.recorded, s.files.surfaced, s.frame.now))
  }

  lemma TimePasses(recorded: map<string, seq<real>>, surfaced: map<string, real>, before: real, after: real)
    requires RecordsOk(recorded, surfaced, before) && before <= after
    ensures RecordsOk(recorded, surfaced, after)
  {
  }

  lemma AppendSpaced(r: seq<real>, t: real)
    requires r == [] || (Spaced(r) && t - Last(r) > PRUNE_SECONDS)
    ensures Spaced(r + [t])
  {
    forall i, j | 0 <= i < j < |r + [t]| ensures (r + [t])[j] - (r + [t])[i] > PRUNE_SECONDS {
      if j == |r| && i < |r| - 1 {
        assert r[|r| - 1] - r[i] > PRUNE_SECONDS;
      }
    }
  }

  lemma SaveKeepsRecords(s: State)
    requires RecordInv(s) && s.frame.Scan?
    ensures RecordsOk(Save(s).log.recorded, Save(s).files.surfaced, s.clock)
  {
    var t := Save(s);
    forall k | k in t.log.recorded ensures RecordOk(t.log.recorded[k], Lookup(t.files.surfaced, k), s.clock) {
      if k in NewlyRecorded(s) {
        if k in s.log.recorded {
          assert RecordOk(s.log.recorded[k], Lookup(s.files.surfaced, k), s.frame.now);
        }
        AppendSpaced(Recorded(s, k), s.frame.seen[k]);
      } else {
        assert RecordOk(s.log.recorded[k], Lookup(s.files.surfaced, k), s.clock);
      }
    }
  }

  /** Nothing a scan works on differs. */
  predicate SameForScans(s: State, t: State)
  {
    && t.frame == s.frame && t.clock == s.clock && t.ledger == s.ledger && t.up == s.up
    && t.files.surfaced == s.files.surfaced && t.files.quarantine == s.files.quarantine
    && t.log.recorded == s.log.recorded && t.log.failing == s.log.failing && t.log.movedTo == s.log.movedTo
    && t.log.acted == s.log.acted && t.log.synced == s.log.synced && t.log.cards == s.log.cards
  }

  lemma WritesTouchOnly(s: State, stem: string, ack: Ack, m: BusMessage)
    ensures SameForScans(s, WriteAck(s, stem, ack)) && SameForScans(s, WriteMessage(s, m))
  {
  }

  lemma ClosingTouchesOnly(s: State, u: State, pending: Messages, decisions: map<string, seq<Ack>>)
    requires SameForScans(s, u)
    ensures SameForScans(s, u.(pending := pending, log := u.log.(decisions := decisions)))
  {
  }

  lemma ConcludeTouchesOnly(s: State, m: BusMessage, ack: Ack, id: string, follower: Option<BusMessage>, writes: Writes)
    ensures SameForScans(s, Conclude(s, m, ack, id, follower, writes))
  {
    var t := WriteAck(s, m.stem, ack);
    WritesTouchOnly(s, m.stem, ack, m);
    hide WriteMessage, WriteAck;
    if follower.Some? {
      WritesTouchOnly(t, m.stem, ack, follower.value);
    }
    var u := if follower.Some? then WriteMessage(t, follower.value) else t;
    assert SameForScans(s, u);
    ClosingTouchesOnly(s, u, u.pending - {id}, u.log.decisions[m.stem := Decisions(u, m.stem) + [ack]]);
    assert SameForScans(s, t.(log := t.log.(torn := t.log.torn + {m.stem})));
  }

  /** A tap touches neither the scan, the surfaced state nor the quarantine. */
  lemma TapTouchesOnly(s: State, reply: Reply, draft: Draft, writes: Writes)
    ensures SameForScans(s, AnswerTap(s, reply, draft, writes))
  {
    hide Decided, Follower, Conclude, WriteMessage;
    if reply.requestId in s.pending {
      var m := s.pending[reply.requestId];
      WritesTouchOnly(s, m.stem, Acknowledged, ReplyFile(m, draft));
      if Decided(m, reply.action).Some? {
        var ack := Decided(m, reply.action).value;
        ConcludeTouchesOnly(s, m, ack, reply.requestId, Follower(m, ack, reply.comment, draft), writes);
      }
    }
  }

  /** A scan step leaves the state file alone and adds at most one entry to the copy. */
  lemma ProcessTouchesOnly(s: State, moveWorks: bool)
    requires s.frame.Scan? && s.frame.todo != []
    ensures var t := ProcessNext(s, moveWorks);
            && t.clock == s.clock && t.files.surfaced == s.files.surfaced && t.log.recorded == s.log.recorded
            && (t.frame.NoScan? || t.frame.now == s.frame.now)
            && (t.frame.NoScan? || t.frame.seen == s.frame.seen
                || t.frame.seen == s.frame.seen[s.frame.todo[0].stem := s.frame.now])
            && (t.frame.NoScan? || t.frame.seen == s.frame.seen ==> t.log.failing == s.log.failing)
            && (t.frame.Scan? && t.frame.seen != s.frame.seen ==>
                  s.frame.todo[0].stem !in s.frame.seen && t.log.failing == s.log.failing - {s.frame.todo[0].stem})
  {
    hide Decide, QuarantineName, VerifyProvenance, Privileged;
    var m := s.frame.todo[0];
    var d := Decide(m, s.frame.overrides);
    var t := s.(frame := s.frame.(todo := s.frame.todo[1..]));
    assert Dispatch(t, m, d).frame.seen == (if d.surface then s.frame.seen else s.frame.seen[m.stem := s.frame.now]);
    if !d.surface && m.stem !in s.frame.seen {
      assert m.stem in Dispatch(t, m, d).frame.seen;
    }
  }

  lemma ScanNextKeepsRecords(s: State, moveWorks: bool)
    requires RecordInv(s)
    ensures RecordInv(Step(s, ScanNext(moveWorks)))
  {
    hide ProcessNext, RecordsOk;
    if At(s, Between) && s.frame.todo != [] {
      ProcessTouchesOnly(s, moveWorks);
    }
  }

  lemma EndScanKeepsRecords(s: State, saveWorks: bool)
    requires RecordInv(s)
    ensures RecordInv(Step(s, EndScan(saveWorks)))
  {
    hide RecordsOk, Pruned, NewlyRecorded;
    if s.frame.Scan? {
      SaveKeepsRecords(s);
    }
  }

  lemma TimeKeepsRecords(s: State, e: Event)
    requires RecordInv(s) && (e.Tick? || e.Tap?)
    ensures RecordInv(Step(s, e))
  {
    hide RecordsOk, AnswerTap;
    match e {
      case Tick(seconds) =>
        if seconds >= 0.0 {
          TimePasses(s.log.recorded, s.files.surfaced, s.clock, s.clock + seconds);
        }
      case Tap(reply, draft, writes) => TapTouchesOnly(s, reply, draft, writes);
    }
  }

  lemma OtherStepsKeepRecords(s: State, e: Event)
    requires RecordInv(s) && SendingInv(s) && !e.EndScan? && !e.ScanNext? && !e.Tick? && !e.Tap?
    ensures RecordInv(Step(s, e))
  {
    hide RecordsOk, Recovered, Interactive, Answerable, ListsActive;
  }

  lemma StepKeepsRecords(s: State, e: Event)
    requires RecordInv(s) && SendingInv(s)
    ensures RecordInv(Step(s, e))
  {
    hide Step, RecordInv, SendingInv;
    match e {
      case EndScan(saveWorks) => EndScanKeepsRecords(s, saveWorks);
      case ScanNext(moveWorks) => ScanNextKeepsRecords(s, moveWorks);
      case Tap(_, _, _) => TimeKeepsRecords(s, e);
      case Tick(_) => TimeKeepsRecords(s, e);
      case _ => OtherStepsKeepRecords(s, e);
    }
  }

  // ----- failed dispatches stay unrecorded --------------------------------------

  ghost predicate FailInv(s: State)
  {
    && (forall k :: k in s.log.failing ==> k !in Seen(s))
    && (s.frame.Scan? ==> forall k :: k in s.files.surfaced ==> k in s.frame.seen)
  }

  lemma StepKeepsFailures(s: State, e: Event)
    requires FailInv(s) && SendingInv(s)
    ensures FailInv(Step(s, e))
  {
    hide AnswerTap, ProcessNext;
    match e {
      case Tap(reply, draft, writes) => TapTouchesOnly(s, reply, draft, writes);
      case ScanNext(moveWorks) => if At(s, Between) && s.frame.todo != [] { ProcessTouchesOnly(s, moveWorks); }
      case _ =>
    }
  }

  // ----- all runs ----------------------------------------------------------------

  ghost predicate Inv(s: State)
  {
    FilesInv(s) && CardInv(s) && CountInv(s) && ActInv(s) && RecordInv(s) && FailInv(s)
  }

  lemma StepKeepsInv(s: State, e: Event)
    requires Inv(s)
    ensures Inv(Step(s, e))
  {
    StepKeepsFiles(s, e);
    StepKeepsCards(s, e);
    StepKeepsCounts(s, e);
    StepKeepsActs(s, e);
    StepKeepsRecords(s, e);
    StepKeepsFailures(s, e);
  }

  /** Every state a run can reach, over all interleavings, failures, crashes and restarts. */
  lemma {:induction false} RunKeepsInv(events: seq<Event>)
    ensures Inv(Run(INITIAL, events))
  {
    if events == [] {
      forall k ensures WithinCards(INITIAL, k) { }
    } else {
      RunKeepsInv(events[..|events| - 1]);
      StepKeepsInv(Run(INITIAL, events[..|events| - 1]), events[|events| - 1]);
    }
  }

  // ----- theorems -------------------------------------------------------------------

  /**
   * No dead tap: in a running daemon, a message that the state file calls
   * surfaced and that is still active, undecided and interactive has its card
   * in the table, and a deciding tap on it is recorded.
   */
  lemma NoDeadTap(events: seq<Event>, stem: string, approve: bool, comment: string, draft: Draft)
    requires var s := Run(INITIAL, events);
             && s.up && stem in s.files.surfaced && stem in s.files.active
             && Interactive(s.files.active[stem]) && stem !in s.files.acks
    ensures var s := Run(INITIAL, events);
            var t := Step(s, Tap(Reply(stem, if approve then "approve" else "reject", comment), draft, AllWritten));
            && stem in s.pending && s.pending[stem] == s.files.active[stem]
            && stem !in t.pending && stem in t.files.acks && |Decisions(t, stem)| == |Decisions(s, stem)| + 1
  {
    RunKeepsInv(events);
    var s := Run(INITIAL, events);
    SurfacedIsPending(s, stem);
    assert s.pending[stem].stem == stem;
    hide Run, Inv, Interactive, Step;
    TapIsRecorded(s, stem, approve, comment, draft);
  }

  lemma SurfacedIsPending(s: State, stem: string)
    requires Inv(s) && s.up && stem in s.files.surfaced && stem in s.files.active
    requires Interactive(s.files.active[stem]) && stem !in s.files.acks
    ensures stem in s.pending && s.pending[stem] == s.files.active[stem]
  {
    assert stem in Seen(s);
    assert Answerable(s, stem);
    assert Entitled(s.pending[stem], s.log, s.ledger);
  }

  /** A deciding tap whose writes succeed acks the message, announces a proposal's decision and closes the card. */
  lemma TapIsRecorded(s: State, stem: string, approve: bool, comment: string, draft: Draft)
    requires s.up && stem in s.pending && s.pending[stem].stem == stem
    ensures var m := s.pending[stem];
            var t := Step(s, Tap(Reply(stem, if approve then "approve" else "reject", comment), draft, AllWritten));
            var ack := if m.kind != SCR then Acknowledged else if approve then Approved else Rejected;
            && stem !in t.pending && stem in t.files.acks && t.files.acks[stem] == ack
            && Decisions(t, stem) == Decisions(s, stem) + [ack]
            && (m.kind == SCR ==> DecisionFile(m, ack, draft) in t.files.active.Values)
            && (forall k :: k != stem ==>
                  (k in t.files.acks <==> k in s.files.acks) && (k in t.pending <==> k in s.pending))
  {
    hide ProcessNext, StartUp, Record, Save, Interactive;
    var m := s.pending[stem];
    var action := if approve then "approve" else "reject";
    var ack := if m.kind != SCR then Acknowledged else if approve then Approved else Rejected;
    ActionDecides(m, approve);
    hide Decided, DecisionFile, ReplyFile;
    var t := Conclude(s, m, ack, stem, Follower(m, ack, comment, draft), AllWritten);
    assert t == Step(s, Tap(Reply(stem, action, comment), draft, AllWritten));
    if m.kind == SCR {
      var f := DecisionFile(m, ack, draft);
      assert f.stem in t.files.active && t.files.active[f.stem] == f;
    }
  }

  lemma ActionDecides(m: BusMessage, approve: bool)
    ensures var action := if approve then "approve" else "reject";
      && action != "comment"
      && Decided(m, action) == Some(if m.kind != SCR then Acknowledged else if approve then Approved else Rejected)
  {
    assert "approve"[0] == 'a' && "reject"[0] == 'r' && "comment"[0] == 'c';
    assert "approve"[1] == 'p' && "acknowledge"[1] == 'c' && "acknowledge"[0] == 'a';
  }

  /**
   * Completed decisions and the open card together never exceed the cards the
   * watcher registered: a card surfaced once is never both approved and rejected.
   */
  lemma OneDecisionPerCard(events: seq<Event>, stem: string)
    ensures var s := Run(INITIAL, events);
            && |Decisions(s, stem)| + (if stem in s.pending then 1 else 0) <= Cards(s, stem)
            && (stem in s.files.acks <==> Decisions(s, stem) != [] || stem in s.log.torn || stem in s.log.elsewhere)
  {
    RunKeepsInv(events);
    assert WithinCards(Run(INITIAL, events), stem);
  }

  /**
   * A privileged message whose content no ledger record carries, under its file
   * name or its id, is never put to the policy, synced or carded.
   */
  lemma UnconfirmedIsNeverActedOn(events: seq<Event>, m: BusMessage)
    requires m.kind in {"human-decision", "spec-change-approved", "spec-change-rejected", "emergency-halt"}
    requires var s := Run(INITIAL, events);
             && m.stem !in s.log.clobbered
             && forall r :: r in s.ledger && r.1 == m.raw ==> r.0 != m.stem && r.0 != m.id
    ensures var s := Run(INITIAL, events);
            && m !in s.log.acted && m !in s.log.synced && m !in s.pending.Values
  {
    RunKeepsInv(events);
    var s := Run(INITIAL, events);
    assert m in s.log.acted ==> Entitled(m, s.log, s.ledger);
  }

  /** Every file that arrived is active, archived by others, or in quarantine with its content. */
  lemma NothingIsLost(events: seq<Event>, stem: string)
    requires var s := Run(INITIAL, events); stem in s.log.arrived && stem !in s.log.clobbered
    ensures var s := Run(INITIAL, events);
            || (stem in s.files.active && s.files.active[stem] == s.log.arrived[stem])
            || stem in s.log.archived
            || s.log.arrived[stem] in s.files.quarantine.Values
  {
    RunKeepsInv(events);
    assert Preserved(stem, Run(INITIAL, events).files, Run(INITIAL, events).log);
  }

  /** No step removes or overwrites a quarantined file. */
  lemma QuarantineOnlyGrows(s: State, e: Event, name: string)
    requires name in s.files.quarantine
    ensures name in Step(s, e).files.quarantine
    ensures Step(s, e).files.quarantine[name] == s.files.quarantine[name]
  {
    match e {
      case ScanNext(moveWorks) =>
        if At(s, Between) && s.frame.todo != [] {
          ProcessOnlyAddsToQuarantine(s, moveWorks, name);
        }
      case Tap(reply, draft, writes) => TapTouchesOnly(s, reply, draft, writes);
      case _ =>
    }
    hide ProcessNext, AnswerTap;
  }

  lemma ProcessOnlyAddsToQuarantine(s: State, moveWorks: bool, name: string)
    requires s.frame.Scan? && s.frame.todo != [] && name in s.files.quarantine
    ensures var t := ProcessNext(s, moveWorks);
      name in t.files.quarantine && t.files.quarantine[name] == s.files.quarantine[name]
  {
    hide QuarantineName, Decide;
    QuarantineNameIsFree(s.files.quarantine.Keys, s.frame.todo[0].stem);
  }

  /** Two surfacings of one message that reached the state file are more than seven days apart. */
  lemma SurfacingsAreAWeekApart(events: seq<Event>, stem: string, i: nat, j: nat)
    requires i < j < |Recorded(Run(INITIAL, events), stem)|
    ensures var r := Recorded(Run(INITIAL, events), stem); r[j] - r[i] > 604800.0
  {
    RunKeepsInv(events);
  }

  predicate Trusted(s: State, m: BusMessage)
  {
    Privileged(m) ==> VerifyProvenance(m, s.files.active, s.ledger)
  }

  /** The scan asks the policy about `m` and, if it is to be shown, is now sending it. */
  predicate SentAgain(s: State, t: State, m: BusMessage)
    requires s.frame.Scan?
  {
    var d := Decide(m, s.frame.overrides);
    && m in t.log.acted
    && (d.surface ==> Sending(t) && t.frame.at.msg == m)
    && (d.interactive ==> m.stem in t.pending && t.pending[m.stem] == m)
  }

  lemma DispatchSends(s: State, m: BusMessage, d: Decision)
    requires s.frame.Scan? && (d.interactive ==> d.surface)
    ensures var t := Dispatch(s, m, d);
            && m in t.log.acted && (d.surface ==> Sending(t) && t.frame.at.msg == m)
            && (d.interactive ==> m.stem in t.pending && t.pending[m.stem] == m)
  {
  }

  lemma UnseenIsSent(s: State, moveWorks: bool)
    requires At(s, Between) && s.frame.todo != []
    requires s.frame.todo[0].stem !in s.frame.seen && Trusted(s, s.frame.todo[0])
    ensures SentAgain(s, Step(s, ScanNext(moveWorks)), s.frame.todo[0])
  {
    hide Decide, VerifyProvenance, Privileged, QuarantineName, Interactive;
    var m := s.frame.todo[0];
    InteractiveUnderAllOverrides(m, s.frame.overrides);
    DispatchSends(s.(frame := s.frame.(todo := s.frame.todo[1..])), m, Decide(m, s.frame.overrides));
  }

  /** A message whose dispatch failed is not taken for surfaced: the next scan asks again and sends again. */
  lemma FailedDispatchIsRetried(events: seq<Event>, moveWorks: bool)
    requires var s := Run(INITIAL, events);
             && At(s, Between) && s.frame.todo != []
             && s.frame.todo[0].stem in s.log.failing && Trusted(s, s.frame.todo[0])
    ensures var s := Run(INITIAL, events); SentAgain(s, Step(s, ScanNext(moveWorks)), s.frame.todo[0])
  {
    RunKeepsInv(events);
    UnseenIsSent(Run(INITIAL, events), moveWorks);
  }
}
