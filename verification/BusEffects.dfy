/**
 * What each step of the bus pipeline does, seen from outside: which files, acks
 * and cards are there afterwards. Nothing here speaks of how a step is computed.
 */
module BusEffects {
  import opened Text
  import opened SurfacePolicy
  import opened Provenance
  import opened BusMachine
  import opened BusPromises

  // ----- taps ----------------------------------------------------------------------

  predicate CardOf(s: State, stem: string, m: BusMessage)
  {
    s.up && stem in s.pending && s.pending[stem] == m && m.stem == stem
  }

  /** Only the one card is gone, and only its message has another ack. */
  ghost predicate OnlyClosed(s: State, t: State, stem: string, ack: Ack)
  {
    && t.pending == (map k | k in s.pending && k != stem :: s.pending[k])
    && stem in t.files.acks && t.files.acks[stem] == ack
    && (forall k :: k != stem ==> (k in t.files.acks <==> k in s.files.acks))
    && (forall k :: k != stem && k in s.files.acks ==> t.files.acks[k] == s.files.acks[k])
    && Decisions(t, stem) == Decisions(s, stem) + [ack]
    && t.frame == s.frame && t.up && t.files.surfaced == s.files.surfaced && t.files.quarantine == s.files.quarantine
  }

  /** Exactly one file is new or replaced. */
  ghost predicate OnlyWritten(s: State, t: State, f: BusMessage)
  {
    && f.stem in t.files.active && t.files.active[f.stem] == f
    && (forall k :: k != f.stem ==> (k in t.files.active <==> k in s.files.active))
    && (forall k :: k != f.stem && k in s.files.active ==> t.files.active[k] == s.files.active[k])
  }

  /** A plain note from the human to whoever sent the message, to all when no one is named. */
  predicate ReplyTo(f: BusMessage, m: BusMessage, draft: Draft)
  {
    && f.kind == "info" && f.sender == "human" && f.to == (if m.sender == "" then "all" else m.sender)
    && f.id == draft.id && f.raw == draft.raw && f.priority == "normal" && f.fromOrg == "" && f.toOrg == ""
    && f.stem == draft.stamp + "-human-to-" + f.to + "-reply"
  }

  lemma ActionsDiffer()
    ensures "acknowledge" != "approve" && "acknowledge" != "reject" && "acknowledge" != "comment"
    ensures "approve" != "reject" && "approve" != "comment" && "reject" != "comment"
  {
    assert "acknowledge"[1] == 'c' && "approve"[1] == 'p' && "reject"[0] == 'r' && "comment"[0] == 'c';
    assert "acknowledge"[0] == 'a' && "approve"[0] == 'a';
  }

  lemma ConclusionCloses(s: State, m: BusMessage, ack: Ack, follower: Option<BusMessage>)
    requires s.up
    ensures var t := Conclude(s, m, ack, m.stem, follower, AllWritten);
            && OnlyClosed(s, t, m.stem, ack)
            && (follower.None? ==> t.files.active == s.files.active)
            && (follower.Some? ==> OnlyWritten(s, t, follower.value))
  {
  }

  lemma DecisionButtonConcludes(s: State, m: BusMessage, ack: Ack, action: string, comment: string, draft: Draft)
    requires CardOf(s, m.stem, m) && Decided(m, action) == Some(ack)
    ensures Step(s, Tap(Reply(m.stem, action, comment), draft, AllWritten))
            == Conclude(s, m, ack, m.stem, Follower(m, ack, comment, draft), AllWritten)
  {
    ActionsDiffer();
    hide ProcessNext, StartUp, Record, Save, Conclude, Follower;
  }

  /**
   * Acknowledging acks the message and closes its card; so does approving or
   * rejecting a card that is not a proposal. A comment goes to the sender.
   */
  lemma AcknowledgingTap(s: State, stem: string, m: BusMessage, action: string, comment: string, draft: Draft)
    requires CardOf(s, stem, m)
    requires action == "acknowledge" || (action in {"approve", "reject"} && m.kind != "spec-change-request")
    ensures var t := Step(s, Tap(Reply(stem, action, comment), draft, AllWritten));
            && OnlyClosed(s, t, stem, Acknowledged)
            && (comment == "" ==> t.files.active == s.files.active)
            && (comment != "" ==> exists f :: OnlyWritten(s, t, f) && ReplyTo(f, m, draft))
  {
    hide Step, Conclude, OnlyClosed, OnlyWritten;
    var follower := Follower(m, Acknowledged, comment, draft);
    DecisionButtonConcludes(s, m, Acknowledged, action, comment, draft);
    ConclusionCloses(s, m, Acknowledged, follower);
    if comment != "" {
      assert follower == Some(ReplyFile(m, draft)) && ReplyTo(follower.value, m, draft);
    }
  }

  /** The announcement of a decision: an approval goes to all, a rejection to whoever proposed. */
  predicate Announces(f: BusMessage, m: BusMessage, approve: bool, draft: Draft)
  {
    && f.kind == (if approve then "spec-change-approved" else "spec-change-rejected") && f.sender == "human"
    && f.to == (if approve || m.sender == "" then "all" else m.sender)
    && f.priority == (if approve then "high" else "normal")
    && f.id == draft.id && f.raw == draft.raw && f.fromOrg == "" && f.toOrg == ""
    && f.stem == if approve then draft.stamp + "-human-to-all-spec-change-approved"
                 else draft.stamp + "-human-to-" + f.to + "-spec-change-rejected"
  }

  lemma DecisionsAreAnnounced(m: BusMessage, approve: bool, draft: Draft)
    ensures Announces(DecisionFile(m, if approve then Approved else Rejected, draft), m, approve, draft)
  {
  }

  /** A decision on a proposal acks it, closes its card and is announced. */
  lemma DecidingTap(s: State, stem: string, m: BusMessage, approve: bool, comment: string, draft: Draft)
    requires CardOf(s, stem, m) && m.kind == "spec-change-request"
    ensures var t := Step(s, Tap(Reply(stem, if approve then "approve" else "reject", comment), draft, AllWritten));
            && OnlyClosed(s, t, stem, if approve then Approved else Rejected)
            && exists f :: OnlyWritten(s, t, f) && Announces(f, m, approve, draft)
  {
    ActionsDiffer();
    hide Step, Conclude, OnlyClosed, OnlyWritten, DecisionFile, Announces;
    var ack := if approve then Approved else Rejected;
    var f := DecisionFile(m, ack, draft);
    DecisionsAreAnnounced(m, approve, draft);
    DecisionButtonConcludes(s, m, ack, if approve then "approve" else "reject", comment, draft);
    ConclusionCloses(s, m, ack, Some(f));
  }

  /** A comment that is not blank reaches the sender; the card, the acks and the decisions stay. */
  lemma CommentTap(s: State, stem: string, m: BusMessage, comment: string, draft: Draft)
    requires CardOf(s, stem, m)
    ensures var t := Step(s, Tap(Reply(stem, "comment", comment), draft, AllWritten));
            if Strip(comment) == "" then t == s
            else
              && t.pending == s.pending && t.files.acks == s.files.acks && t.log.decisions == s.log.decisions
              && t.frame == s.frame && t.files.surfaced == s.files.surfaced
              && t.files.quarantine == s.files.quarantine
              && exists f :: OnlyWritten(s, t, f) && ReplyTo(f, m, draft)
  {
    hide ProcessNext, StartUp, Record, Save, Strip, Decided;
    if Strip(comment) != "" {
      var f := ReplyFile(m, draft);
      assert ReplyTo(f, m, draft);
      hide ReplyFile;
      assert OnlyWritten(s, Step(s, Tap(Reply(stem, "comment", comment), draft, AllWritten)), f);
    }
  }

  /** Any other action, an unknown card, and a tap while the daemon is down change nothing. */
  lemma IdleTap(s: State, reply: Reply, draft: Draft, writes: Writes)
    requires !s.up || reply.requestId !in s.pending
             || reply.action !in {"acknowledge", "approve", "reject", "comment"}
    ensures Step(s, Tap(reply, draft, writes)) == s
  {
    hide ProcessNext, StartUp, Record, Save;
  }

  /**
   * A decision on a proposal whose first write fails changes nothing; one whose
   * announcement fails leaves the ack and keeps the card for another tap.
   */
  lemma FailingTap(s: State, stem: string, m: BusMessage, approve: bool, comment: string, draft: Draft)
    requires CardOf(s, stem, m) && m.kind == "spec-change-request"
    ensures var tap := Reply(stem, if approve then "approve" else "reject", comment);
            var t := Step(s, Tap(tap, draft, OnlyTheAck));
            && Step(s, Tap(tap, draft, NothingWritten)) == s
            && t.pending == s.pending && t.files.active == s.files.active && t.log.decisions == s.log.decisions
            && stem in t.files.acks && t.files.acks[stem] == (if approve then Approved else Rejected)
            && (forall k :: k != stem ==> (k in t.files.acks <==> k in s.files.acks))
            && stem in t.log.torn
  {
    ActionsDiffer();
    hide ProcessNext, StartUp, Record, Save, DecisionFile;
  }

  /** The same for acknowledging with a comment: without one there is no second write that could fail. */
  lemma FailingAcknowledgement(s: State, stem: string, m: BusMessage, comment: string, draft: Draft)
    requires CardOf(s, stem, m)
    ensures var tap := Reply(stem, "acknowledge", comment);
            var t := Step(s, Tap(tap, draft, OnlyTheAck));
            && Step(s, Tap(tap, draft, NothingWritten)) == s
            && t.files.active == s.files.active && stem in t.files.acks && t.files.acks[stem] == Acknowledged
            && (comment != "" ==> t.pending == s.pending && t.log.decisions == s.log.decisions)
            && (comment == "" ==> OnlyClosed(s, t, stem, Acknowledged))
  {
    ActionsDiffer();
    hide ProcessNext, StartUp, Record, Save, ReplyFile;
  }

  // ----- one scan ------------------------------------------------------------------

  /** A scan starts from the state file and the clock of the moment. */
  lemma ScanStart(s: State, listing: seq<BusMessage>, over: Overrides)
    requires s.up && s.frame.NoScan?
    requires forall m :: m in listing ==> m.stem in s.files.active && s.files.active[m.stem] == m
    ensures var t := Step(s, BeginScan(listing, over));
            && t == s.(frame := t.frame) && t.frame.Scan? && t.frame.todo == listing && t.frame.at == Between
            && t.frame.seen == s.files.surfaced && t.frame.now == s.clock && t.frame.overrides == over
            && !t.frame.changed
  {
    hide ProcessNext, AnswerTap, StartUp, Record, Save;
  }

  predicate ScansNext(s: State, m: BusMessage)
  {
    s.frame.Scan? && s.frame.at == Between && s.frame.todo != [] && s.frame.todo[0] == m
  }

  /** A message seen before is passed over. */
  lemma SeenIsPassedOver(s: State, m: BusMessage, moveWorks: bool)
    requires ScansNext(s, m) && m.stem in s.frame.seen
    ensures Step(s, ScanNext(moveWorks)) == s.(frame := s.frame.(todo := s.frame.todo[1..]))
  {
    hide Decide, VerifyProvenance, Privileged;
  }

  /** A message of an ordinary kind, or a privileged one whose present content is on record. */
  ghost predicate MayAct(s: State, m: BusMessage)
  {
    m.kind in {"human-decision", "spec-change-approved", "spec-change-rejected", "emergency-halt"} ==>
      m.stem in s.files.active && OnRecord(m, s.files.active[m.stem].raw, s.ledger)
  }

  lemma MayActIsTrusted(s: State, m: BusMessage)
    ensures MayAct(s, m) <==> Trusted(s, m)
  {
    VerifiedExactly(m, s.files.active, s.ledger);
  }

  /** A privileged message whose present content is on no record moves to quarantine and is not acted on. */
  lemma ForgedIsMoved(s: State, m: BusMessage, moveWorks: bool)
    requires ScansNext(s, m) && m.stem !in s.frame.seen && !MayAct(s, m)
    ensures var t := Step(s, ScanNext(moveWorks));
            && t.pending == s.pending && t.log.acted == s.log.acted && t.log.synced == s.log.synced
            && t.log.cards == s.log.cards && t.files.surfaced == s.files.surfaced && t.files.acks == s.files.acks
            && if moveWorks && m.stem in s.files.active then
                 && t.files.active == (map k | k in s.files.active && k != m.stem :: s.files.active[k])
                 && (exists name :: name !in s.files.quarantine
                       && t.files.quarantine == s.files.quarantine[name := s.files.active[m.stem]])
                 && t.frame == s.frame.(todo := s.frame.todo[1..], at := Alerting)
               else t == s.(frame := NoScan)
  {
    hide Decide, QuarantineName, Dispatch, MayAct, Privileged, VerifyProvenance;
    QuarantineNameIsFree(s.files.quarantine.Keys, m.stem);
    MayActIsTrusted(s, m);
    var t := s.(frame := s.frame.(todo := s.frame.todo[1..]));
    if moveWorks && m.stem in s.files.active {
      assert Step(s, ScanNext(moveWorks)) == MoveToQuarantine(t, m);
      var name := QuarantineName(s.files.quarantine.Keys, m.stem);
      assert name !in s.files.quarantine;
      assert MoveToQuarantine(t, m).files.quarantine == s.files.quarantine[name := s.files.active[m.stem]];
    }
  }

  /**
   * Any other message gets what the policy says: a card that is registered before
   * it is sent, a notice that is sent, or nothing but the mark that it was seen.
   */
  lemma TrustedIsDispatched(s: State, m: BusMessage, moveWorks: bool)
    requires ScansNext(s, m) && m.stem !in s.frame.seen && MayAct(s, m)
    ensures var d := Decide(m, s.frame.overrides);
            var t := Step(s, ScanNext(moveWorks));
            && t.files == s.files && m in t.log.acted && t.frame.Scan? && t.frame.todo == s.frame.todo[1..]
            && (if d.surface && d.interactive then
                  && t.frame.at == SendingCard(m) && t.pending == s.pending[m.stem := m]
                  && Cards(t, m.stem) == Cards(s, m.stem) + 1
                else t.pending == s.pending && t.log.cards == s.log.cards)
            && (d.surface && !d.interactive ==> t.frame.at == SendingInfo(m))
            && (if d.surface then t.frame.seen == s.frame.seen && t.frame.changed == s.frame.changed
                                  && t.log.synced == s.log.synced
                else t.frame.at == Between && t.frame.seen == s.frame.seen[m.stem := s.frame.now]
                     && t.frame.changed && t.log.synced == s.log.synced + {m})
  {
    MayActIsTrusted(s, m);
    hide Decide, VerifyProvenance, Privileged, MoveToQuarantine;
    var t := s.(frame := s.frame.(todo := s.frame.todo[1..]));
    assert Step(s, ScanNext(moveWorks)) == Dispatch(t, m, Decide(m, s.frame.overrides));
  }

  /** A send that succeeds marks the message seen at the scan's time and syncs it. */
  lemma SentIsSeen(s: State, m: BusMessage)
    requires s.frame.Scan? && (s.frame.at == SendingCard(m) || s.frame.at == SendingInfo(m))
    ensures var t := Step(s, Sent);
            && t.files == s.files && t.pending == s.pending && t.frame.Scan? && t.frame.todo == s.frame.todo
            && t.frame.at == Between && t.frame.changed && t.frame.seen == s.frame.seen[m.stem := s.frame.now]
            && m in t.log.synced && m.stem !in t.log.failing
  {
    hide ProcessNext, AnswerTap, StartUp, Save;
  }

  /** A send that fails takes the card back, leaves the message unseen, and the scan goes on. */
  lemma FailedIsUnseen(s: State, m: BusMessage)
    requires s.frame.Scan? && (s.frame.at == SendingCard(m) || s.frame.at == SendingInfo(m))
    ensures var t := Step(s, SendFailed);
            && t.files == s.files && t.frame == s.frame.(at := Between) && m.stem in t.log.failing
            && t.log.synced == s.log.synced
            && t.pending == (if s.frame.at == SendingCard(m) then map k | k in s.pending && k != m.stem :: s.pending[k]
                             else s.pending)
  {
    hide ProcessNext, AnswerTap, StartUp, Save, Record;
  }

  /** The end of a scan that changed something writes what was seen in seven days; a failed write changes no file. */
  lemma ScanEnd(s: State, saveWorks: bool)
    requires s.frame.Scan? && s.frame.at == Between && s.frame.todo == []
    ensures var t := Step(s, EndScan(saveWorks));
            && t.frame.NoScan? && t.pending == s.pending && t.files == s.files.(surfaced := t.files.surfaced)
            && (!(s.frame.changed && saveWorks) ==> t.files.surfaced == s.files.surfaced)
            && (s.frame.changed && saveWorks ==>
                  forall k :: (k in t.files.surfaced <==> k in s.frame.seen && s.frame.seen[k] + 604800.0 >= s.clock)
                              && (k in t.files.surfaced ==> t.files.surfaced[k] == s.frame.seen[k]))
  {
    hide ProcessNext, AnswerTap, StartUp, Record, NewlyRecorded;
  }

  // ----- lifecycle and surroundings --------------------------------------------------

  /** Starting reads the cards back from the files; stopping and crashing forget them and keep every file. */
  lemma StartAndStop(s: State)
    ensures var t := Step(s, Start);
            if s.up || s.frame.Scan? then t == s
            else
              && t.up && t.files == s.files && t.frame.NoScan?
              && forall k :: k in t.pending <==>
                   k in s.pending || (k in s.files.active && k in s.files.surfaced && k !in s.files.acks
                                      && Decide(s.files.active[k], map[]).interactive)
    ensures var t := Step(s, Stop); !t.up && t.pending == map[] && t.files == s.files && t.frame == s.frame
    ensures var t := Step(s, Crash); !t.up && t.pending == map[] && t.files == s.files && t.frame.NoScan?
    ensures var t := Step(s, CancelScan); t == if s.up then s else s.(frame := NoScan)
  {
    hide ProcessNext, AnswerTap, Record, Save, Decide, Interactive;
    forall k | k in s.files.active
      ensures Decide(s.files.active[k], map[]).interactive <==> Interactive(s.files.active[k])
    {
      InteractiveUnderAllOverrides(s.files.active[k], map[]);
    }
  }

  /** What comes from outside: new files, files taken away, acks and records; time passes. */
  lemma Arrival(s: State, m: BusMessage)
    ensures var t := Step(s, Arrive(m));
            if m.stem in s.log.arrived then t == s
            else t.files == s.files.(active := s.files.active[m.stem := m]) && t.pending == s.pending
                 && t.frame == s.frame && t.log.arrived == s.log.arrived[m.stem := m]
  {
    hide ProcessNext, AnswerTap, StartUp, Record, Save;
  }

  lemma Archiving(s: State, stem: string)
    ensures var t := Step(s, Archive(stem));
            && t.files.active == (map k | k in s.files.active && k != stem :: s.files.active[k])
            && t.files == s.files.(active := t.files.active) && t.pending == s.pending && t.frame == s.frame
            && (stem !in s.files.active ==> t == s)
  {
    hide ProcessNext, AnswerTap, StartUp, Record, Save;
    assert stem !in s.files.active ==>
             s.files.active == map k | k in s.files.active && k != stem :: s.files.active[k];
  }

  lemma Surroundings(s: State, stem: string, ack: Ack, record: (string, string), seconds: real)
    ensures var t := Step(s, AckElsewhere(stem, ack));
            t.files == s.files.(acks := s.files.acks[stem := ack]) && t.pending == s.pending && t.frame == s.frame
    ensures Step(s, Confirm(record)) == s.(ledger := s.ledger + {record})
    ensures seconds >= 0.0 ==> Step(s, Tick(seconds)) == s.(clock := s.clock + seconds)
    ensures Step(s, AlertDone) ==
            if s.frame.Scan? && s.frame.at == Alerting then s.(frame := s.frame.(at := Between)) else s
  {
    hide ProcessNext, AnswerTap, StartUp, Record, Save;
  }
}
