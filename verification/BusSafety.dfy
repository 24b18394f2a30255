/** What every run of the bus pipeline keeps, and the promises that follow. */
module BusSafety {
  import opened Text
  import opened SurfacePolicy
  import opened Provenance
  import opened BusMachine

  type Messages = map<string, BusMessage>

  // ----- files: nothing is lost, in-flight snapshots stay true ------------

  ghost predicate ActiveInv(active: Messages, arrived: Messages, clobbered: set<string>)
  {
    && clobbered <= arrived.Keys
    && (forall k :: k in arrived ==> arrived[k].stem == k)
    && (forall k :: k in active ==> active[k].stem == k && k in arrived)
    && (forall k :: k in active && k !in clobbered ==> active[k] == arrived[k])
    && (forall k :: k in active && k in clobbered ==> !Interactive(active[k]))
  }

  ghost predicate PendingInv(pending: Messages)
  {
    forall k :: k in pending ==> pending[k].stem == k
  }

  /** A snapshot a scan holds is the file's content unless a bridge write replaced it. */
  predicate Snapshot(m: BusMessage, arrived: Messages, clobbered: set<string>)
  {
    m.stem in arrived && (m.stem !in clobbered ==> arrived[m.stem] == m)
  }

  ghost predicate FlightInv(f: Frame, arrived: Messages, clobbered: set<string>)
  {
    f.Scan? ==>
      && (forall i :: 0 <= i < |f.todo| ==> Snapshot(f.todo[i], arrived, clobbered))
      && (f.at.SendingCard? || f.at.SendingInfo? ==> Snapshot(f.at.msg, arrived, clobbered))
  }

  predicate Preserved(k: string, files: Files, log: History)
    requires k in log.arrived
  {
    || k in files.active
    || k in log.archived
    || k in log.clobbered
    || (k in log.movedTo && log.movedTo[k] in files.quarantine && files.quarantine[log.movedTo[k]] == log.arrived[k])
  }

  ghost predicate BytesInv(files: Files, log: History)
  {
    forall k :: k in log.arrived ==> Preserved(k, files, log)
  }

  ghost predicate FilesInv(s: State)
  {
    && ActiveInv(s.files.active, s.log.arrived, s.log.clobbered)
    && PendingInv(s.pending)
    && FlightInv(s.frame, s.log.arrived, s.log.clobbered)
    && BytesInv(s.files, s.log)
  }

  lemma WrittenFilesAreQuiet(m: BusMessage, ack: Ack, draft: Draft)
    ensures !Interactive(ReplyFile(m, draft))
    ensures ack != Acknowledged ==>
      var f := DecisionFile(m, ack, draft); !Interactive(f) && Privileged(f)
  {
    RepliesAreQuiet(m, draft);
    if ack != Acknowledged {
      DecisionFilesAreQuiet(m, ack, draft);
    }
    hide *;
  }

  lemma ListedKindIsQuiet(m: BusMessage)
    requires Lower(m.priority) != "urgent" && m.kind != SCR && DefaultPolicy(m.kind).Some?
    ensures !Interactive(m)
  {
  }

  lemma WrittenPrioritiesAreNotUrgent()
    ensures Lower("high") != "urgent" && Lower("normal") != "urgent"
  {
    assert Lower("normal")[0] == 'n' && Lower("high")[0] == 'h';
  }

  lemma WrittenKindsAreListed()
    ensures DefaultPolicy("info").Some? && "info" != SCR
    ensures DefaultPolicy("spec-change-approved").Some? && "spec-change-approved" != SCR
    ensures DefaultPolicy("spec-change-rejected").Some? && "spec-change-rejected" != SCR
  {
  }

  lemma RepliesAreQuiet(m: BusMessage, draft: Draft)
    ensures !Interactive(ReplyFile(m, draft))
  {
    WrittenPrioritiesAreNotUrgent();
    WrittenKindsAreListed();
    hide Lower, DefaultPolicy, Interactive;
    ListedKindIsQuiet(ReplyFile(m, draft));
  }

  lemma DecisionFilesAreQuiet(m: BusMessage, ack: Ack, draft: Draft)
    requires ack != Acknowledged
    ensures var f := DecisionFile(m, ack, draft); !Interactive(f) && Privileged(f)
  {
    WrittenPrioritiesAreNotUrgent();
    WrittenKindsAreListed();
    hide Lower, DefaultPolicy, Interactive;
    ListedKindIsQuiet(DecisionFile(m, ack, draft));
  }

  /** Files and history may change in ways that keep every arrived file accounted for. */
  lemma BytesCarryOver(a: Files, la: History, b: Files, lb: History)
    requires BytesInv(a, la) && lb.arrived == la.arrived
    requires a.active.Keys <= b.active.Keys + lb.archived && la.archived <= lb.archived && la.clobbered <= lb.clobbered
    requires la.movedTo == lb.movedTo && a.quarantine == b.quarantine
    ensures BytesInv(b, lb)
  {
    forall k | k in lb.arrived ensures Preserved(k, b, lb) {
      assert Preserved(k, a, la);
    }
  }

  lemma NewFileKeepsActive(active: Messages, arrived: Messages, clobbered: set<string>, m: BusMessage)
    requires ActiveInv(active, arrived, clobbered) && m.stem !in arrived
    ensures ActiveInv(active[m.stem := m], arrived[m.stem := m], clobbered)
  {
    hide Interactive;
  }

  lemma ClobberKeepsActive(active: Messages, arrived: Messages, clobbered: set<string>, m: BusMessage)
    requires ActiveInv(active, arrived, clobbered) && m.stem in arrived && !Interactive(m)
    ensures ActiveInv(active[m.stem := m], arrived, clobbered + {m.stem})
  {
    hide Interactive;
  }

  lemma HistoryKeepsFlight(f: Frame, arrived: Messages, clobbered: set<string>, later: Messages, more: set<string>)
    requires FlightInv(f, arrived, clobbered) && arrived.Keys <= later.Keys && clobbered <= more
    requires forall k :: k in arrived ==> later[k] == arrived[k]
    ensures FlightInv(f, later, more)
  {
  }

  lemma NewFileKeepsBytes(a: Files, la: History, m: BusMessage)
    requires BytesInv(a, la) && m.stem !in la.arrived
    ensures BytesInv(a.(active := a.active[m.stem := m]), la.(arrived := la.arrived[m.stem := m]))
  {
    var b, lb := a.(active := a.active[m.stem := m]), la.(arrived := la.arrived[m.stem := m]);
    forall k | k in lb.arrived ensures Preserved(k, b, lb) {
      if k in la.arrived { assert Preserved(k, a, la); }
    }
  }

  lemma ArriveKeepsFiles(s: State, m: BusMessage)
    requires FilesInv(s)
    ensures FilesInv(Step(s, Arrive(m)))
  {
    hide ActiveInv, FlightInv, BytesInv;
    if m.stem !in s.log.arrived {
      NewFileKeepsActive(s.files.active, s.log.arrived, s.log.clobbered, m);
      HistoryKeepsFlight(s.frame, s.log.arrived, s.log.clobbered, s.log.arrived[m.stem := m], s.log.clobbered);
      NewFileKeepsBytes(s.files, s.log, m);
    }
  }

  lemma WriteMessageKeepsFiles(s: State, m: BusMessage)
    requires FilesInv(s) && !Interactive(m)
    ensures FilesInv(WriteMessage(s, m))
  {
    hide ActiveInv, FlightInv, BytesInv;
    if m.stem !in s.log.arrived {
      ArriveKeepsFiles(s, m);
    } else {
      var t := WriteMessage(s, m);
      ClobberKeepsActive(s.files.active, s.log.arrived, s.log.clobbered, m);
      HistoryKeepsFlight(s.frame, s.log.arrived, s.log.clobbered, s.log.arrived, t.log.clobbered);
      BytesCarryOver(s.files, s.log, t.files, t.log);
    }
  }

  lemma MoveKeepsFiles(s: State, m: BusMessage)
    requires FilesInv(s) && s.frame.Scan? && m.stem in s.files.active
    ensures FilesInv(MoveToQuarantine(s, m))
  {
    hide Interactive;
    var t := MoveToQuarantine(s, m);
    QuarantineNameIsFree(s.files.quarantine.Keys, m.stem);
    forall k | k in t.log.arrived ensures Preserved(k, t.files, t.log) {
      assert Preserved(k, s.files, s.log);
    }
  }

  lemma DispatchKeepsFiles(s: State, m: BusMessage, d: Decision)
    requires FilesInv(s) && s.frame.Scan? && Snapshot(m, s.log.arrived, s.log.clobbered)
    ensures FilesInv(Dispatch(s, m, d))
  {
    hide Interactive;
    BytesCarryOver(s.files, s.log, Dispatch(s, m, d).files, Dispatch(s, m, d).log);
  }

  lemma ProcessKeepsFiles(s: State, moveWorks: bool)
    requires FilesInv(s) && s.frame.Scan? && s.frame.todo != []
    ensures FilesInv(ProcessNext(s, moveWorks))
  {
    hide Interactive, Decide, Confirmed;
    var m := s.frame.todo[0];
    var t := s.(frame := s.frame.(todo := s.frame.todo[1..]));
    assert FilesInv(t);
    if m.stem in s.frame.seen {
    } else if Privileged(m) && !VerifyProvenance(m, s.files.active, s.ledger) {
      if moveWorks && m.stem in s.files.active {
        MoveKeepsFiles(t, m);
      }
    } else {
      DispatchKeepsFiles(t, m, Decide(m, t.frame.overrides));
    }
  }

  lemma ConcludeKeepsFiles(s: State, m: BusMessage, ack: Ack, id: string, follower: Option<BusMessage>, writes: Writes)
    requires FilesInv(s) && (follower.Some? ==> !Interactive(follower.value))
    ensures FilesInv(Conclude(s, m, ack, id, follower, writes))
  {
    hide FilesInv, Interactive, WriteMessage;
    var t := WriteAck(s, m.stem, ack);
    FilesCarryOver(s, t);
    FilesCarryOver(t, t.(log := t.log.(torn := t.log.torn + {m.stem})));
    if follower.Some? {
      WriteMessageKeepsFiles(t, follower.value);
    }
    var u := if follower.Some? then WriteMessage(t, follower.value) else t;
    FilesCarryOver(u, u.(pending := u.pending - {id},
                         log := u.log.(decisions := u.log.decisions[m.stem := Decisions(u, m.stem) + [ack]])));
  }

  lemma TapKeepsFiles(s: State, reply: Reply, draft: Draft, writes: Writes)
    requires FilesInv(s)
    ensures FilesInv(AnswerTap(s, reply, draft, writes))
  {
    hide Interactive, DecisionFile, ReplyFile, Decided, FilesInv, Conclude, WriteMessage;
    if reply.requestId in s.pending {
      var m := s.pending[reply.requestId];
      if reply.action == "comment" {
        WrittenFilesAreQuiet(m, Acknowledged, draft);
        WriteMessageKeepsFiles(s, ReplyFile(m, draft));
      } else if Decided(m, reply.action).Some? {
        var ack := Decided(m, reply.action).value;
        WrittenFilesAreQuiet(m, ack, draft);
        ConcludeKeepsFiles(s, m, ack, reply.requestId, Follower(m, ack, reply.comment, draft), writes);
      }
    }
  }

  /** Steps that leave quarantine and arrivals alone and take at most files, cards or the scan away. */
  lemma FilesCarryOver(s: State, t: State)
    requires FilesInv(s) && t.log.arrived == s.log.arrived && t.log.clobbered == s.log.clobbered
    requires t.log.movedTo == s.log.movedTo && t.files.quarantine == s.files.quarantine
    requires t.files.active.Keys <= s.files.active.Keys <= t.files.active.Keys + t.log.archived
    requires forall k :: k in t.files.active ==> t.files.active[k] == s.files.active[k]
    requires s.log.archived <= t.log.archived && t.pending.Keys <= s.pending.Keys
    requires forall k :: k in t.pending ==> t.pending[k] == s.pending[k]
    requires t.frame.Scan? ==> s.frame.Scan? && t.frame.todo == s.frame.todo
                               && (t.frame.at == s.frame.at || t.frame.at == Between)
    ensures FilesInv(t)
  {
    hide Interactive;
    BytesCarryOver(s.files, s.log, t.files, t.log);
  }

  lemma SentKeepsFiles(s: State)
    requires FilesInv(s)
    ensures FilesInv(Step(s, Sent))
  {
    FilesCarryOver(s, Step(s, Sent));
    hide FilesInv;
  }

  lemma EndScanKeepsFiles(s: State, saveWorks: bool)
    requires FilesInv(s)
    ensures FilesInv(Step(s, EndScan(saveWorks)))
  {
    FilesCarryOver(s, Step(s, EndScan(saveWorks)));
    hide FilesInv;
  }

  lemma BeginScanKeepsFiles(s: State, listing: seq<BusMessage>, overrides: Overrides)
    requires FilesInv(s)
    ensures FilesInv(Step(s, BeginScan(listing, overrides)))
  {
    hide Interactive;
  }

  lemma ScanNextKeepsFiles(s: State, moveWorks: bool)
    requires FilesInv(s)
    ensures FilesInv(Step(s, ScanNext(moveWorks)))
  {
    hide ProcessNext, FilesInv;
    if At(s, Between) && s.frame.todo != [] {
      ProcessKeepsFiles(s, moveWorks);
    }
  }

  lemma TapStepKeepsFiles(s: State, reply: Reply, draft: Draft, writes: Writes)
    requires FilesInv(s)
    ensures FilesInv(Step(s, Tap(reply, draft, writes)))
  {
    hide AnswerTap, FilesInv;
    TapKeepsFiles(s, reply, draft, writes);
  }

  lemma StartStepKeepsFiles(s: State)
    requires FilesInv(s)
    ensures FilesInv(Step(s, Start))
  {
    hide StartUp, FilesInv;
    StartKeepsFiles(s);
  }

  lemma OtherStepsKeepFiles(s: State, e: Event)
    requires FilesInv(s) && !e.Arrive? && !e.ScanNext? && !e.Tap? && !e.Start? && !e.BeginScan?
    requires !e.Sent? && !e.EndScan?
    ensures FilesInv(Step(s, e))
  {
    hide FilesInv;
    FilesCarryOver(s, Step(s, e));
  }

  lemma StepKeepsFiles(s: State, e: Event)
    requires FilesInv(s)
    ensures FilesInv(Step(s, e))
  {
    hide Step, FilesInv;
    match e {
      case Arrive(m) => ArriveKeepsFiles(s, m);
      case ScanNext(moveWorks) => ScanNextKeepsFiles(s, moveWorks);
      case Tap(reply, draft, writes) => TapStepKeepsFiles(s, reply, draft, writes);
      case Start => StartStepKeepsFiles(s);
      case BeginScan(listing, overrides) => BeginScanKeepsFiles(s, listing, overrides);
      case Sent => SentKeepsFiles(s);
      case EndScan(saveWorks) => EndScanKeepsFiles(s, saveWorks);
      case _ => OtherStepsKeepFiles(s, e);
    }
  }

  lemma StartKeepsFiles(s: State)
    requires FilesInv(s)
    ensures FilesInv(StartUp(s))
  {
    BytesCarryOver(s.files, s.log, StartUp(s).files, StartUp(s).log);
  }

  // ----- cards: surfaced, undecided messages stay answerable ----------------

  predicate Answerable(s: State, k: string)
  {
    Cards(s, k) >= 1 && (s.up ==> k in s.pending || k in s.files.acks)
  }

  ghost predicate SendingInv(s: State)
  {
    Sending(s) ==>
      var m := s.frame.at.msg;
      && m.stem !in s.frame.seen
      && (s.frame.at.SendingCard? <==> Interactive(m))
      && (s.frame.at.SendingCard? ==> Answerable(s, m.stem))
  }

  ghost predicate CardInv(s: State)
  {
    && SendingInv(s)
    && (s.frame.Scan? ==> forall k :: k in s.files.surfaced ==> k in s.frame.seen)
    && (forall k :: k in Seen(s) ==> k in s.log.arrived)
    && (forall k :: k in Seen(s) && k in s.files.active && Interactive(s.files.active[k]) ==> Answerable(s, k))
  }

  lemma RecordKeepsCards(s: State, m: BusMessage)
    requires CardInv(s) && s.frame.Scan? && m.stem in s.log.arrived
    requires m.stem in s.files.active && Interactive(s.files.active[m.stem]) ==> Answerable(s, m.stem)
    ensures CardInv(Record(s, m))
  {
    hide Interactive;
  }

  lemma PassedOverKeepsCards(s: State, m: BusMessage, log: History)
    requires CardInv(s) && FilesInv(s) && s.frame.Scan? && Snapshot(m, s.log.arrived, s.log.clobbered)
    requires !Interactive(m) && log.arrived == s.log.arrived && log.cards == s.log.cards
    ensures CardInv(Record(s.(log := log), m))
  {
    hide Interactive;
    assert CardInv(s.(log := log));
    RecordKeepsCards(s.(log := log), m);
  }

  lemma NewCardKeepsCards(s: State, m: BusMessage, log: History)
    requires CardInv(s) && s.frame.Scan? && m.stem !in s.frame.seen && Interactive(m)
    requires log.arrived == s.log.arrived && log.cards == s.log.cards[m.stem := Cards(s, m.stem) + 1]
    ensures CardInv(s.(pending := s.pending[m.stem := m], frame := s.frame.(at := SendingCard(m)), log := log))
  {
    hide Interactive;
    var t := s.(pending := s.pending[m.stem := m], frame := s.frame.(at := SendingCard(m)), log := log);
    forall k | Answerable(s, k) ensures Answerable(t, k) {
    }
  }

  lemma NoticeKeepsCards(s: State, m: BusMessage, log: History)
    requires CardInv(s) && s.frame.Scan? && m.stem !in s.frame.seen && !Interactive(m)
    requires log.arrived == s.log.arrived && log.cards == s.log.cards
    ensures CardInv(s.(frame := s.frame.(at := SendingInfo(m)), log := log))
  {
    hide Interactive;
    var t := s.(frame := s.frame.(at := SendingInfo(m)), log := log);
    forall k | Answerable(s, k) ensures Answerable(t, k) {
    }
  }

  lemma DispatchKeepsCards(s: State, m: BusMessage, d: Decision)
    requires CardInv(s) && FilesInv(s) && s.frame.Scan? && Snapshot(m, s.log.arrived, s.log.clobbered)
    requires m.stem !in s.frame.seen && (d.interactive <==> Interactive(m)) && (Interactive(m) ==> d.surface)
    ensures CardInv(Dispatch(s, m, d))
  {
    hide Interactive, CardInv, FilesInv, Record, Snapshot;
    var log := s.log.(acted := s.log.acted + {m});
    if !d.surface {
      PassedOverKeepsCards(s, m, log);
    } else if d.interactive {
      NewCardKeepsCards(s, m, log.(cards := log.cards[m.stem := Cards(s, m.stem) + 1]));
    } else {
      NoticeKeepsCards(s, m, log);
    }
  }

  lemma MoveKeepsCards(s: State, m: BusMessage)
    requires CardInv(s) && At(s, Between) && m.stem in s.files.active
    ensures CardInv(MoveToQuarantine(s, m))
  {
    hide Interactive, QuarantineName;
  }

  lemma ProcessKeepsCards(s: State, moveWorks: bool)
    requires CardInv(s) && FilesInv(s) && At(s, Between) && s.frame.todo != []
    ensures CardInv(ProcessNext(s, moveWorks))
  {
    var m := s.frame.todo[0];
    var t := s.(frame := s.frame.(todo := s.frame.todo[1..]));
    assert CardInv(t) && CardInv(s.(frame := NoScan)) by { ShorterTodoKeepsCards(s); }
    assert Snapshot(m, s.log.arrived, s.log.clobbered);
    hide Interactive, Decide, VerifyProvenance, Privileged, CardInv, FilesInv, MoveToQuarantine, Dispatch, Snapshot;
    if m.stem in s.frame.seen {
    } else if Privileged(m) && !VerifyProvenance(m, s.files.active, s.ledger) {
      if m.stem in s.files.active { MoveKeepsCards(t, m); }
    } else {
      InteractiveUnderAllOverrides(m, t.frame.overrides);
      FilesInvForShorterTodo(s);
      DispatchKeepsCards(t, m, Decide(m, t.frame.overrides));
    }
  }

  lemma ShorterTodoKeepsCards(s: State)
    requires CardInv(s) && s.frame.Scan? && s.frame.todo != []
    ensures CardInv(s.(frame := s.frame.(todo := s.frame.todo[1..]))) && CardInv(s.(frame := NoScan))
  {
    hide Interactive;
  }

  lemma FilesInvForShorterTodo(s: State)
    requires FilesInv(s) && s.frame.Scan? && s.frame.todo != []
    ensures FilesInv(s.(frame := s.frame.(todo := s.frame.todo[1..])))
  {
    hide Interactive;
  }

  lemma WriteMessageKeepsCards(s: State, m: BusMessage)
    requires CardInv(s) && !Interactive(m)
    ensures CardInv(WriteMessage(s, m))
  {
  }

  lemma ConcludeKeepsCards(s: State, m: BusMessage, ack: Ack, id: string, follower: Option<BusMessage>, writes: Writes)
    requires CardInv(s) && m.stem == id && (follower.Some? ==> !Interactive(follower.value))
    ensures CardInv(Conclude(s, m, ack, id, follower, writes))
  {
    hide Interactive;
    var t := WriteAck(s, m.stem, ack);
    assert CardInv(t);
    if follower.Some? {
      WriteMessageKeepsCards(t, follower.value);
    }
  }

  lemma TapKeepsCards(s: State, reply: Reply, draft: Draft, writes: Writes)
    requires CardInv(s) && FilesInv(s)
    ensures CardInv(AnswerTap(s, reply, draft, writes))
  {
    hide Interactive, DecisionFile, ReplyFile, Decided, CardInv, Conclude, WriteMessage;
    if reply.requestId in s.pending {
      var m := s.pending[reply.requestId];
      if reply.action == "comment" {
        WrittenFilesAreQuiet(m, Acknowledged, draft);
        WriteMessageKeepsCards(s, ReplyFile(m, draft));
      } else if Decided(m, reply.action).Some? {
        var ack := Decided(m, reply.action).value;
        WrittenFilesAreQuiet(m, ack, draft);
        ConcludeKeepsCards(s, m, ack, reply.requestId, Follower(m, ack, reply.comment, draft), writes);
      }
    }
  }

  lemma SentKeepsCards(s: State)
    requires CardInv(s) && FilesInv(s) && Sending(s)
    ensures CardInv(Record(s, s.frame.at.msg))
  {
  }

  lemma EndScanKeepsCards(s: State)
    requires CardInv(s) && s.frame.Scan?
    ensures CardInv(Save(s).(frame := NoScan)) && CardInv(s.(frame := NoScan))
  {
  }

  lemma StartKeepsCards(s: State)
    requires CardInv(s) && s.frame.NoScan?
    ensures CardInv(StartUp(s))
  {
    hide Interactive;
    forall k | k in s.files.surfaced && k in s.files.active && Interactive(s.files.active[k]) ensures Cards(s, k) >= 1 {
      assert k in Seen(s);
      assert Answerable(s, k);
    }
  }

  lemma SendFailedKeepsCards(s: State)
    requires CardInv(s)
    ensures CardInv(Step(s, SendFailed))
  {
  }

  lemma ArriveKeepsCards(s: State, m: BusMessage)
    requires CardInv(s)
    ensures CardInv(Step(s, Arrive(m)))
  {
  }

  lemma BeginScanKeepsCards(s: State, listing: seq<BusMessage>, overrides: Overrides)
    requires CardInv(s)
    ensures CardInv(Step(s, BeginScan(listing, overrides)))
  {
  }

  lemma StepKeepsCards(s: State, e: Event)
    requires CardInv(s) && FilesInv(s)
    ensures CardInv(Step(s, e))
  {
    hide ProcessNext, AnswerTap, StartUp, Record, Save, Interactive, CardInv, FilesInv;
    match e {
      case ScanNext(moveWorks) => if At(s, Between) && s.frame.todo != [] { ProcessKeepsCards(s, moveWorks); }
      case Tap(reply, draft, writes) => TapKeepsCards(s, reply, draft, writes);
      case Sent => if Sending(s) { SentKeepsCards(s); }
      case SendFailed => SendFailedKeepsCards(s);
      case EndScan(_) => if s.frame.Scan? { EndScanKeepsCards(s); }
      case Arrive(m) => ArriveKeepsCards(s, m);
      case Start => if s.frame.NoScan? { StartKeepsCards(s); }
      case BeginScan(listing, overrides) => BeginScanKeepsCards(s, listing, overrides);
      case _ => CardsCarryOver(s, Step(s, e));
    }
  }

  /** Steps that only take away: files, the table on the way down, the scan. */
  lemma CardsCarryOver(s: State, t: State)
    requires CardInv(s)
    requires t.frame == s.frame || t.frame.NoScan? || (s.frame.Scan? && t.frame == s.frame.(at := Between))
    requires t.files.surfaced == s.files.surfaced && s.files.acks.Keys <= t.files.acks.Keys
    requires t.log.cards == s.log.cards && t.log.arrived == s.log.arrived
    requires forall k :: k in t.files.active ==> k in s.files.active && t.files.active[k] == s.files.active[k]
    requires t.up ==> s.up && t.pending == s.pending
    ensures CardInv(t)
  {
    hide Interactive;
  }
}
