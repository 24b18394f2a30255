/**
 * Runs in which the bus pipeline does what one would not expect, and the exact
 * conditions under which it does what one would.
 */
module BusLimits {
  import opened Text
  import opened SurfacePolicy
  import opened Provenance
  import opened BusMachine
  import opened BusSafety
  import opened BusPromises

  // ----- the bridge's own announcements ------------------------------------------

  /**
   * The files that announce a decision are themselves of privileged types: a scan
   * that meets one without a ledger record moves it out of the agents' sight.
   */
  lemma UnconfirmedDecisionFileIsQuarantined(s: State, m: BusMessage, ack: Ack, draft: Draft)
    requires ack != Acknowledged
    requires var f := DecisionFile(m, ack, draft);
             && At(s, Between) && s.frame.todo != [] && s.frame.todo[0] == f && f.stem !in s.frame.seen
             && f.stem in s.files.active && s.files.active[f.stem] == f
             && forall r :: r in s.ledger && r.1 == f.raw ==> r.0 != f.stem && r.0 != f.id
    ensures var f := DecisionFile(m, ack, draft);
            var t := Step(s, ScanNext(true));
            && f.stem !in t.files.active && f in t.files.quarantine.Values
            && t.log.acted == s.log.acted && t.log.synced == s.log.synced
  {
    hide QuarantineName, Confirmed, Interactive, Decide;
    var f := DecisionFile(m, ack, draft);
    WrittenFilesAreQuiet(m, ack, draft);
    VerifiedExactly(f, s.files.active, s.ledger);
    var name := QuarantineName(s.files.quarantine.Keys, f.stem);
    var t := Step(s, ScanNext(true));
    assert name in t.files.quarantine && t.files.quarantine[name] == f;
  }

  /** Whoever is to see an announcement keeps it exactly when the ledger has a record of it. */
  lemma AnnouncementStaysExactly(s: State, m: BusMessage, ack: Ack, draft: Draft)
    requires ack != Acknowledged
    requires var f := DecisionFile(m, ack, draft);
             && At(s, Between) && s.frame.todo != [] && s.frame.todo[0] == f && f.stem !in s.frame.seen
             && f.stem in s.files.active && s.files.active[f.stem] == f
    ensures var f := DecisionFile(m, ack, draft);
            f.stem in Step(s, ScanNext(true)).files.active
            <==> exists r :: r in s.ledger && r.1 == f.raw && (r.0 == f.stem || r.0 == f.id)
  {
    var f := DecisionFile(m, ack, draft);
    VerifiedExactly(f, s.files.active, s.ledger);
    hide DecisionFile, Decide, Confirmed;
    if VerifyProvenance(f, s.files.active, s.ledger) {
    } else {
      UnconfirmedDecisionFileIsQuarantined(s, m, ack, draft);
    }
  }

  // ----- runs -------------------------------------------------------------------

  lemma RunSnoc(s: State, events: seq<Event>, e: Event)
    ensures Run(s, events + [e]) == Step(Run(s, events), e)
  {
    assert (events + [e])[..|events|] == events;
  }

  /** The life of one message up to the end of the scan that surfaces it. */
  function Surfacing(m: BusMessage): seq<Event>
  {
    [Arrive(m)] + [Start] + [BeginScan([m], map[])] + [ScanNext(true)] + [Sent] + [EndScan(true)]
  }

  lemma ScanBegins(m: BusMessage) returns (s: State)
    ensures s == Run(INITIAL, [Arrive(m)] + [Start] + [BeginScan([m], map[])])
    ensures s.up && s.files.active == map[m.stem := m] && s.files.acks == map[] && s.files.surfaced == map[]
    ensures s.pending == map[] && s.log.decisions == map[] && s.clock == 0.0 && s.ledger == {}
    ensures s.frame == Scan(map[], 0.0, map[], [m], false, Between)
  {
    hide Interactive;
    var a := Step(INITIAL, Arrive(m));
    var b := Step(a, Start);
    assert Recovered(a.files) == map[];
    s := Step(b, BeginScan([m], map[]));
    RunSnoc(INITIAL, [], Arrive(m));
    assert [] + [Arrive(m)] == [Arrive(m)];
    RunSnoc(INITIAL, [Arrive(m)], Start);
    RunSnoc(INITIAL, [Arrive(m)] + [Start], BeginScan([m], map[]));
  }

  lemma FirstTurnSends(c: State, m: BusMessage)
    requires m.kind == SCR && Interactive(m) && c.frame == Scan(map[], 0.0, map[], [m], false, Between)
    requires c.pending == map[]
    ensures var s := ProcessNext(c, true);
            && s.up == c.up && s.files == c.files && s.log.decisions == c.log.decisions && s.clock == c.clock
            && s.ledger == c.ledger && s.pending == map[m.stem := m]
            && s.frame == Scan(map[], 0.0, map[], [], false, SendingCard(m))
  {
    InteractiveUnderAllOverrides(m, c.frame.overrides);
    assert !Privileged(m);
    hide Interactive, Decide, VerifyProvenance, Privileged, MoveToQuarantine;
    var t := c.(frame := c.frame.(todo := c.frame.todo[1..]));
    assert ProcessNext(c, true) == Dispatch(t, m, Decide(m, t.frame.overrides));
  }

  lemma ScanSends(m: BusMessage) returns (s: State)
    requires m.kind == SCR && Interactive(m)
    ensures s == Run(INITIAL, [Arrive(m)] + [Start] + [BeginScan([m], map[])] + [ScanNext(true)])
    ensures s.up && s.files.active == map[m.stem := m] && s.files.acks == map[] && s.files.surfaced == map[]
    ensures s.pending == map[m.stem := m] && s.log.decisions == map[] && s.clock == 0.0 && s.ledger == {}
    ensures At(s, SendingCard(m)) && s.frame.todo == [] && s.frame.seen == map[] && s.frame.now == 0.0
  {
    hide Interactive, ProcessNext, Run, AnswerTap, StartUp, Save, Record;
    var c := ScanBegins(m);
    RunSnoc(INITIAL, [Arrive(m)] + [Start] + [BeginScan([m], map[])], ScanNext(true));
    s := Step(c, ScanNext(true));
    FirstTurnSends(c, m);
  }

  lemma SurfacingSurfaces(m: BusMessage) returns (s: State)
    requires m.kind == SCR && Interactive(m)
    ensures s == Run(INITIAL, Surfacing(m))
    ensures s.up && s.files.active == map[m.stem := m] && s.files.acks == map[] && s.frame.NoScan?
    ensures s.pending == map[m.stem := m] && s.files.surfaced.Keys == {m.stem} && s.log.decisions == map[]
    ensures s.ledger == {}
  {
    hide ProcessNext, AnswerTap, StartUp, Interactive, Run;
    var d := ScanSends(m);
    var prefix := [Arrive(m)] + [Start] + [BeginScan([m], map[])] + [ScanNext(true)];
    RunSnoc(INITIAL, prefix, Sent);
    RunSnoc(INITIAL, prefix + [Sent], EndScan(true));
    var e := Step(d, Sent);
    assert e == Record(d, m);
    s := Step(e, EndScan(true));
    assert s == Save(e).(frame := NoScan);
  }

  /** A tap on a proposal's card, a ledger record, and the scan that comes after. */
  function Announcing(m: BusMessage, approve: bool, draft: Draft, record: (string, string)): seq<Event>
    requires m.kind == SCR
  {
    var f := DecisionFile(m, if approve then Approved else Rejected, draft);
    var tap := Tap(Reply(m.stem, if approve then "approve" else "reject", ""), draft, AllWritten);
    Surfacing(m) + [tap] + [Confirm(record)] + [BeginScan([m, f], map[])] + [ScanNext(true)] + [ScanNext(true)]
  }

  lemma AnnouncementIsWritten(a: State, m: BusMessage, approve: bool, draft: Draft) returns (s: State)
    requires m.kind == SCR && a.up && a.files.active == map[m.stem := m] && a.files.acks == map[]
    requires a.frame.NoScan? && a.pending == map[m.stem := m] && a.files.surfaced.Keys == {m.stem} && a.ledger == {}
    ensures var ack := if approve then Approved else Rejected;
            var f := DecisionFile(m, ack, draft);
            && s == Step(a, Tap(Reply(m.stem, if approve then "approve" else "reject", ""), draft, AllWritten))
            && s.up && s.files.active == map[m.stem := m][f.stem := f] && s.files.acks == map[m.stem := ack]
            && s.frame.NoScan? && s.files.surfaced.Keys == {m.stem} && s.ledger == {}
  {
    ActionDecides(m, approve);
    hide Decided, DecisionFile, Interactive;
    var ack := if approve then Approved else Rejected;
    var tap := Tap(Reply(m.stem, if approve then "approve" else "reject", ""), draft, AllWritten);
    s := Step(a, tap);
    assert s == Conclude(a, m, ack, m.stem, Some(DecisionFile(m, ack, draft)), AllWritten);
  }

  lemma ScanReachesTheAnnouncement(b: State, m: BusMessage, f: BusMessage, record: (string, string))
    returns (s: State)
    requires b.up && b.files.active == map[m.stem := m][f.stem := f] && f.stem != m.stem
    requires b.frame.NoScan? && b.files.surfaced.Keys == {m.stem} && b.ledger == {}
    ensures s == Step(Step(Step(b, Confirm(record)), BeginScan([m, f], map[])), ScanNext(true))
    ensures At(s, Between) && s.frame.todo == [f] && f.stem !in s.frame.seen
    ensures s.files == b.files && s.ledger == {record}
  {
    hide Decide, VerifyProvenance, Privileged;
    var c := Step(b, Confirm(record));
    var d := Step(c, BeginScan([m, f], map[]));
    s := Step(d, ScanNext(true));
  }

  /**
   * For every proposal there is a run in which the bridge announces the decision
   * and its own next scan takes the announcement away. Over all ledger records
   * the announcement stays exactly when it is the one recorded.
   */
  lemma AnnouncementSurvivesExactly(m: BusMessage, approve: bool, draft: Draft, record: (string, string))
    requires m.kind == SCR && Interactive(m)
    requires DecisionFile(m, if approve then Approved else Rejected, draft).stem != m.stem
    ensures var ack := if approve then Approved else Rejected;
            var f := DecisionFile(m, ack, draft);
            var s := Run(INITIAL, Announcing(m, approve, draft, record));
            && m.stem in s.files.acks && s.files.acks[m.stem] == ack
            && (f.stem in s.files.active <==> record.1 == f.raw && (record.0 == f.stem || record.0 == f.id))
            && (f.stem in s.files.active || f in s.files.quarantine.Values)
  {
    var ack := if approve then Approved else Rejected;
    var f := DecisionFile(m, ack, draft);
    var tap := Tap(Reply(m.stem, if approve then "approve" else "reject", ""), draft, AllWritten);
    var a := SurfacingSurfaces(m);
    var b := AnnouncementIsWritten(a, m, approve, draft);
    var d := ScanReachesTheAnnouncement(b, m, f, record);
    RunSnoc(INITIAL, Surfacing(m), tap);
    RunSnoc(INITIAL, Surfacing(m) + [tap], Confirm(record));
    RunSnoc(INITIAL, Surfacing(m) + [tap] + [Confirm(record)], BeginScan([m, f], map[]));
    RunSnoc(INITIAL, Surfacing(m) + [tap] + [Confirm(record)] + [BeginScan([m, f], map[])], ScanNext(true));
    RunSnoc(INITIAL, Surfacing(m) + [tap] + [Confirm(record)] + [BeginScan([m, f], map[])] + [ScanNext(true)],
            ScanNext(true));
    AnnouncementStaysExactly(d, m, ack, draft);
    if record.1 != f.raw || (record.0 != f.stem && record.0 != f.id) {
      UnconfirmedDecisionFileIsQuarantined(d, m, ack, draft);
    }
    hide Run, Surfacing, DecisionFile, Interactive, ProcessNext, AnswerTap;
    ScanKeepsAcks(d, true);
  }

  lemma ScanKeepsAcks(s: State, moveWorks: bool)
    ensures Step(s, ScanNext(moveWorks)).files.acks == s.files.acks
  {
    hide Decide, VerifyProvenance, Privileged, QuarantineName;
  }

  /**
   * The ack is written before the announcement. For every proposal there is a
   * run in which the announcement fails and the daemon restarts: the proposal is
   * then acked and surfaced, was never announced, and its card answers no tap.
   */
  lemma TornDecisionIsNotRecovered(m: BusMessage, draft: Draft)
    requires m.kind == SCR && Interactive(m)
    ensures var events := Surfacing(m) + [Tap(Reply(m.stem, "approve", ""), draft, OnlyTheAck)] + [Crash] + [Start];
            var s := Run(INITIAL, events);
            && s.up && s.files.active == map[m.stem := m] && m.stem in s.files.surfaced
            && m.stem in s.files.acks && Decisions(s, m.stem) == [] && s.pending == map[]
  {
    hide ProcessNext, Record, Save;
    var a := SurfacingSurfaces(m);
    var tap := Tap(Reply(m.stem, "approve", ""), draft, OnlyTheAck);
    RunSnoc(INITIAL, Surfacing(m), tap);
    RunSnoc(INITIAL, Surfacing(m) + [tap], Crash);
    RunSnoc(INITIAL, Surfacing(m) + [tap] + [Crash], Start);
    ActionDecides(m, true);
    hide Decided, DecisionFile, Run, Interactive;
    var b := Step(a, tap);
    assert b == Conclude(a, m, Approved, m.stem, Some(DecisionFile(m, Approved, draft)), OnlyTheAck);
    var c := Step(b, Crash);
    assert Recovered(c.files) == map[];
  }

  /** Two decision files have one name exactly when second, decision and, for a rejection, proposer agree. */
  lemma DecisionFilesCollideExactly(m: BusMessage, n: BusMessage, a: Ack, b: Ack, d: Draft, e: Draft)
    requires a != Acknowledged && b != Acknowledged && |d.stamp| == |e.stamp|
    ensures DecisionFile(m, a, d).stem == DecisionFile(n, b, e).stem
            <==> d.stamp == e.stamp && a == b && (a == Rejected ==> Proposer(m) == Proposer(n))
  {
    DecisionFileName(m, a, d);
    DecisionFileName(n, b, e);
    hide DecisionFile, Proposer;
    var x, y := DecisionFile(m, a, d).stem, DecisionFile(n, b, e).stem;
    assert x == y ==> d.stamp == e.stamp && a == b && (a == Rejected ==> Proposer(m) == Proposer(n));
  }

  lemma DecisionFileName(m: BusMessage, a: Ack, d: Draft)
    requires a != Acknowledged
    ensures var x := DecisionFile(m, a, d).stem;
      && |x| > |d.stamp| + 31 && x[..|d.stamp|] == d.stamp && x[|x| - 3] == (if a == Approved then 'v' else 't')
      && (a == Approved ==> x == d.stamp + "-human-to-all-spec-change-approved")
      && (a == Rejected ==> x == d.stamp + "-human-to-" + Proposer(m) + "-spec-change-rejected"
                            && x[|d.stamp| + 10..|x| - 21] == Proposer(m))
  {
  }

  // ----- recovery -------------------------------------------------------------------

  /**
   * A restart gives the card of a surfaced, active, interactive message back
   * exactly when nothing was decided on it: no tap completed, none tore, and no
   * one acked it on the workspace.
   */
  lemma RecoveryGivesBackExactly(events: seq<Event>, stem: string)
    requires var s := Run(INITIAL, events + [Crash] + [Start]);
             && stem in s.files.surfaced && stem in s.files.active && Interactive(s.files.active[stem])
    ensures var s := Run(INITIAL, events + [Crash] + [Start]);
            stem in s.pending
            <==> Decisions(s, stem) == [] && stem !in s.log.torn && stem !in s.log.elsewhere
  {
    RunKeepsInv(events + [Crash] + [Start]);
    RunSnoc(INITIAL, events, Crash);
    RunSnoc(INITIAL, events + [Crash], Start);
    RestartRecovers(Run(INITIAL, events));
    hide Run, Step, Recovered, Interactive;
    var s := Run(INITIAL, events + [Crash] + [Start]);
    assert s.pending == Recovered(s.files);
    RecoveredExactly(s.files, stem);
  }

  lemma RestartRecovers(s: State)
    ensures var t := Step(Step(s, Crash), Start); t.pending == Recovered(t.files)
  {
    hide Interactive;
    var t := Step(Step(s, Crash), Start);
    assert t.pending == Recovered(t.files) + map[];
  }

  lemma RecoveredExactly(files: Files, stem: string)
    requires stem in files.surfaced && stem in files.active && Interactive(files.active[stem])
    ensures stem in Recovered(files) <==> stem !in files.acks
  {
    hide Interactive;
  }

  /** Surfaced, undecided and carrying buttons. */
  predicate Returns(files: Files, m: BusMessage)
  {
    m.stem in files.surfaced && m.stem !in files.acks && Interactive(m)
  }

  /** The cards of a listing that recovery takes up. */
  function Gathered(files: Files, listing: seq<BusMessage>): map<string, BusMessage>
  {
    if listing == [] then map[]
    else
      var m := listing[|listing| - 1];
      var g := Gathered(files, listing[..|listing| - 1]);
      if Returns(files, m) then g[m.stem := m] else g
  }

  lemma {:induction false} GatheredExactly(files: Files, listing: seq<BusMessage>, k: string)
    ensures k in Gathered(files, listing) <==>
              exists i :: 0 <= i < |listing| && listing[i].stem == k && Returns(files, listing[i])
    ensures k in Gathered(files, listing) ==> Gathered(files, listing)[k] in listing
                                              && Gathered(files, listing)[k].stem == k
  {
    hide Returns;
    if listing != [] {
      var n := |listing| - 1;
      GatheredExactly(files, listing[..n], k);
      assert forall i :: 0 <= i < n ==> listing[..n][i] == listing[i];
    }
  }

  predicate DistinctStems(listing: seq<BusMessage>)
  {
    forall i, j :: 0 <= i < j < |listing| ==> listing[i].stem != listing[j].stem
  }

  lemma NewStem(files: Files, listing: seq<BusMessage>)
    requires listing != [] && DistinctStems(listing)
    ensures listing[|listing| - 1].stem !in Gathered(files, listing[..|listing| - 1])
  {
    hide Returns;
    GatheredExactly(files, listing[..|listing| - 1], listing[|listing| - 1].stem);
  }

  /** Over a complete listing without repetition they are the cards recovered. */
  lemma GatheredAreTheRecovered(files: Files, listing: seq<BusMessage>)
    requires ListsActive(listing, files.active) && forall k :: k in files.active ==> files.active[k] in listing
    requires forall k :: k in files.active ==> files.active[k].stem == k
    ensures Gathered(files, listing) == Recovered(files)
  {
    hide Interactive;
    var g, r := Gathered(files, listing), Recovered(files);
    forall k ensures (k in g <==> k in r) && (k in g ==> g[k] == r[k]) {
      GatheredExactly(files, listing, k);
      if k in r {
        assert files.active[k] in listing;
        var i :| 0 <= i < |listing| && listing[i] == files.active[k];
        assert listing[i].stem == k && Returns(files, listing[i]);
      }
      if k in g {
        var i :| 0 <= i < |listing| && listing[i].stem == k && Returns(files, listing[i]);
        assert listing[i] in listing;
      }
    }
  }

  // ----- acks that change -------------------------------------------------------------

  /** The event writes an ack for the stem that differs from the one there. */
  predicate ReplacesAck(s: State, e: Event, stem: string)
    requires stem in s.files.acks
  {
    match e
    case AckElsewhere(k, ack) => k == stem && ack != s.files.acks[stem]
    case Tap(reply, _, writes) =>
      && s.up && reply.requestId == stem && stem in s.pending && writes != NothingWritten
      && reply.action != "comment" && Decided(s.pending[stem], reply.action).Some?
      && Decided(s.pending[stem], reply.action).value != s.files.acks[stem]
    case _ => false
  }

  lemma OtherStepsLeaveAcks(s: State, e: Event)
    requires !e.Tap? && !e.AckElsewhere?
    ensures Step(s, e).files.acks == s.files.acks
  {
    if e.ScanNext? {
      ScanKeepsAcks(s, e.moveWorks);
    }
    hide ProcessNext, AnswerTap;
  }

  lemma TapStepReplacesAck(s: State, reply: Reply, draft: Draft, writes: Writes, stem: string)
    requires PendingInv(s.pending) && stem in s.files.acks
    ensures var t := Step(s, Tap(reply, draft, writes));
            stem in t.files.acks
            && (t.files.acks[stem] == s.files.acks[stem] <==> !ReplacesAck(s, Tap(reply, draft, writes), stem))
  {
    if s.up {
      TapReplacesAck(s, reply, draft, writes, stem);
    }
    hide AnswerTap, Decided;
  }

  lemma AckElsewhereReplacesAck(s: State, k: string, ack: Ack, stem: string)
    requires stem in s.files.acks
    ensures var t := Step(s, AckElsewhere(k, ack));
            stem in t.files.acks
            && (t.files.acks[stem] == s.files.acks[stem] <==> !ReplacesAck(s, AckElsewhere(k, ack), stem))
  {
  }

  /** No step looks at acks before it writes one: a recorded decision stands exactly until one of these replaces it. */
  lemma AckStandsExactly(events: seq<Event>, e: Event, stem: string)
    requires stem in Run(INITIAL, events).files.acks
    ensures var s := Run(INITIAL, events);
            var t := Step(s, e);
            stem in t.files.acks && (t.files.acks[stem] == s.files.acks[stem] <==> !ReplacesAck(s, e, stem))
  {
    RunKeepsInv(events);
    var s := Run(INITIAL, events);
    assert PendingInv(s.pending);
    hide Run, Inv, Step, Decided;
    match e {
      case Tap(reply, draft, writes) => TapStepReplacesAck(s, reply, draft, writes, stem);
      case AckElsewhere(k, ack) => AckElsewhereReplacesAck(s, k, ack, stem);
      case _ => OtherStepsLeaveAcks(s, e);
    }
  }

  lemma ConcludeWritesAck(s: State, m: BusMessage, ack: Ack, id: string, follower: Option<BusMessage>, writes: Writes)
    ensures Conclude(s, m, ack, id, follower, writes).files.acks
            == if writes == NothingWritten then s.files.acks else s.files.acks[m.stem := ack]
  {
  }

  lemma TapReplacesAck(s: State, reply: Reply, draft: Draft, writes: Writes, stem: string)
    requires s.up && PendingInv(s.pending) && stem in s.files.acks
    ensures var t := AnswerTap(s, reply, draft, writes);
            stem in t.files.acks
            && (t.files.acks[stem] == s.files.acks[stem] <==> !ReplacesAck(s, Tap(reply, draft, writes), stem))
  {
    if reply.requestId in s.pending {
      var m := s.pending[reply.requestId];
      if Decided(m, reply.action).Some? {
        var ack := Decided(m, reply.action).value;
        ConcludeWritesAck(s, m, ack, reply.requestId, Follower(m, ack, reply.comment, draft), writes);
      }
    }
    hide Decided, Follower, Conclude, ReplyFile;
  }

  /** A proposal rejected on the workspace, its card still open, and an approving tap. */
  function Overruling(m: BusMessage, draft: Draft): seq<Event>
  {
    Surfacing(m) + [AckElsewhere(m.stem, Rejected)] + [Tap(Reply(m.stem, "approve", ""), draft, AllWritten)]
  }

  /** For every proposal there is a run in which a tap turns a rejection made elsewhere into an announced approval. */
  lemma TapOverrulesTheWorkspace(m: BusMessage, draft: Draft)
    requires m.kind == SCR && Interactive(m)
    ensures var s := Run(INITIAL, Overruling(m, draft));
            && m.stem in s.log.elsewhere && m.stem in s.files.acks && s.files.acks[m.stem] == Approved
            && DecisionFile(m, Approved, draft) in s.files.active.Values
  {
    hide ProcessNext, Record, Save, StartUp;
    var a := SurfacingSurfaces(m);
    var tap := Tap(Reply(m.stem, "approve", ""), draft, AllWritten);
    RunSnoc(INITIAL, Surfacing(m), AckElsewhere(m.stem, Rejected));
    RunSnoc(INITIAL, Surfacing(m) + [AckElsewhere(m.stem, Rejected)], tap);
    ActionDecides(m, true);
    hide Run, Surfacing, Interactive, Decided, DecisionFile;
    var b := Step(a, AckElsewhere(m.stem, Rejected));
    var f := DecisionFile(m, Approved, draft);
    var c := Conclude(b, m, Approved, m.stem, Some(f), AllWritten);
    assert Step(b, tap) == c;
    assert f.stem in c.files.active && c.files.active[f.stem] == f;
  }

  // ----- what a completed scan has done ---------------------------------------------------

  /** The message was surfaced before the scan, is in quarantine, or has been put to the policy. */
  predicate Asked(s: State, m: BusMessage, before: map<string, real>)
  {
    m.stem in before || m.stem in s.log.movedTo || m in s.log.acted
  }

  /** Shown or passed over for good, moved to quarantine, or failed and left for the next scan. */
  predicate Settled(s: State, m: BusMessage)
    requires s.frame.Scan?
  {
    m.stem in s.frame.seen || m.stem in s.log.movedTo || m.stem in s.log.failing
  }

  ghost predicate SameStemSameMessage(listing: seq<BusMessage>)
  {
    forall m, n :: m in listing && n in listing && m.stem == n.stem ==> m == n
  }

  ghost predicate ScanInv(s: State, listing: seq<BusMessage>, before: map<string, real>)
    requires s.frame.Scan?
  {
    && (forall m :: m in s.frame.todo ==> m in listing)
    && (Sending(s) ==> s.frame.at.msg in listing && s.frame.at.msg in s.log.acted)
    && (forall m :: m in listing ==>
          m in s.frame.todo || (Sending(s) && s.frame.at.msg == m) || (Settled(s, m) && Asked(s, m, before)))
    && (forall m :: m in listing && m.stem in s.frame.seen ==> Asked(s, m, before))
    && (!s.frame.changed ==> s.frame.seen == s.files.surfaced)
  }

  lemma TapKeepsScan(s: State, reply: Reply, draft: Draft, writes: Writes, listing: seq<BusMessage>,
      before: map<string, real>)
    requires s.frame.Scan? && ScanInv(s, listing, before)
    ensures var t := AnswerTap(s, reply, draft, writes); t.frame.Scan? && ScanInv(t, listing, before)
  {
    TapTouchesOnly(s, reply, draft, writes);
    hide AnswerTap;
  }

  lemma RecordKeepsScan(s: State, listing: seq<BusMessage>, before: map<string, real>)
    requires s.frame.Scan? && Sending(s) && ScanInv(s, listing, before) && SameStemSameMessage(listing)
    ensures var t := Record(s, s.frame.at.msg); t.frame.Scan? && ScanInv(t, listing, before)
  {
    var t := Record(s, s.frame.at.msg);
    forall m | m in listing
      ensures m in t.frame.todo || (Settled(t, m) && Asked(t, m, before))
      ensures m.stem in t.frame.seen ==> Asked(t, m, before)
    {
      assert m.stem == s.frame.at.msg.stem ==> m == s.frame.at.msg;
    }
  }

  lemma FailureKeepsScan(s: State, listing: seq<BusMessage>, before: map<string, real>)
    requires s.frame.Scan? && Sending(s) && ScanInv(s, listing, before)
    ensures var t := Step(s, SendFailed); t.frame.Scan? && ScanInv(t, listing, before)
  {
    var t := Step(s, SendFailed);
    forall m | m in listing ensures m in t.frame.todo || (Settled(t, m) && Asked(t, m, before)) {
    }
  }

  lemma DispatchKeepsScan(s: State, m: BusMessage, d: Decision, listing: seq<BusMessage>, before: map<string, real>)
    requires s.frame.Scan? && s.frame.at == Between && m in listing && SameStemSameMessage(listing)
    requires forall n :: n in s.frame.todo ==> n in listing
    requires forall n :: n in listing ==>
               n == m || n in s.frame.todo || (Settled(s, n) && Asked(s, n, before))
    requires forall n :: n in listing && n.stem in s.frame.seen ==> Asked(s, n, before)
    requires !s.frame.changed ==> s.frame.seen == s.files.surfaced
    ensures var t := Dispatch(s, m, d); t.frame.Scan? && ScanInv(t, listing, before)
  {
    var t := Dispatch(s, m, d);
    forall n | n in listing
      ensures n in t.frame.todo || (Sending(t) && t.frame.at.msg == n) || (Settled(t, n) && Asked(t, n, before))
      ensures n.stem in t.frame.seen ==> Asked(t, n, before)
    {
      assert n.stem == m.stem ==> n == m;
    }
  }

  lemma MoveKeepsScan(s: State, m: BusMessage, listing: seq<BusMessage>, before: map<string, real>)
    requires s.frame.Scan? && m in listing && m.stem in s.files.active
    requires forall n :: n in s.frame.todo ==> n in listing
    requires forall n :: n in listing ==>
               n == m || n in s.frame.todo || (Settled(s, n) && Asked(s, n, before))
    requires forall n :: n in listing && n.stem in s.frame.seen ==> Asked(s, n, before)
    requires !s.frame.changed ==> s.frame.seen == s.files.surfaced
    ensures var t := MoveToQuarantine(s, m); t.frame.Scan? && ScanInv(t, listing, before)
  {
    hide Interactive, QuarantineName;
    var t := MoveToQuarantine(s, m);
    assert t.frame == s.frame.(at := Alerting) && t.files.surfaced == s.files.surfaced;
    assert m.stem in t.log.movedTo && s.log.movedTo.Keys <= t.log.movedTo.Keys;
    assert t.log.failing == s.log.failing && t.log.acted == s.log.acted;
    hide MoveToQuarantine;
  }

  lemma ProcessKeepsScan(s: State, moveWorks: bool, listing: seq<BusMessage>, before: map<string, real>)
    requires At(s, Between) && s.frame.todo != [] && ScanInv(s, listing, before) && SameStemSameMessage(listing)
    ensures var t := ProcessNext(s, moveWorks); t.frame.Scan? ==> ScanInv(t, listing, before)
  {
    var m := s.frame.todo[0];
    var t := s.(frame := s.frame.(todo := s.frame.todo[1..]));
    assert m in s.frame.todo;
    forall n | n in listing ensures n == m || n in t.frame.todo || (Settled(t, n) && Asked(t, n, before)) {
      if n in s.frame.todo && n != m {
        var i :| 0 <= i < |s.frame.todo| && s.frame.todo[i] == n;
        assert t.frame.todo[i - 1] == n;
      }
    }
    hide Decide, VerifyProvenance, Privileged, MoveToQuarantine, Dispatch;
    if m.stem in s.frame.seen {
    } else if Privileged(m) && !VerifyProvenance(m, s.files.active, s.ledger) {
      if m.stem in s.files.active { MoveKeepsScan(t, m, listing, before); }
    } else {
      DispatchKeepsScan(t, m, Decide(m, t.frame.overrides), listing, before);
    }
  }

  lemma ScanCarriesOver(s: State, t: State, listing: seq<BusMessage>, before: map<string, real>)
    requires s.frame.Scan? && ScanInv(s, listing, before)
    requires t.frame == s.frame || (s.frame.at == Alerting && t.frame == s.frame.(at := Between))
    requires t.log.movedTo == s.log.movedTo && t.log.failing == s.log.failing && t.log.acted == s.log.acted
    requires t.files.surfaced == s.files.surfaced
    ensures ScanInv(t, listing, before)
  {
  }

  lemma TapStepKeepsScan(s: State, reply: Reply, draft: Draft, writes: Writes, listing: seq<BusMessage>,
      before: map<string, real>)
    requires s.frame.Scan? && ScanInv(s, listing, before)
    ensures var t := Step(s, Tap(reply, draft, writes)); t.frame.Scan? && ScanInv(t, listing, before)
  {
    hide AnswerTap, ScanInv;
    TapKeepsScan(s, reply, draft, writes, listing, before);
  }

  lemma ScanNextKeepsScan(s: State, moveWorks: bool, listing: seq<BusMessage>, before: map<string, real>)
    requires s.frame.Scan? && ScanInv(s, listing, before) && SameStemSameMessage(listing)
    ensures var t := Step(s, ScanNext(moveWorks)); t.frame.Scan? ==> ScanInv(t, listing, before)
  {
    hide ProcessNext, ScanInv;
    if At(s, Between) && s.frame.todo != [] {
      ProcessKeepsScan(s, moveWorks, listing, before);
    }
  }

  lemma SentKeepsScan(s: State, listing: seq<BusMessage>, before: map<string, real>)
    requires s.frame.Scan? && ScanInv(s, listing, before) && SameStemSameMessage(listing)
    ensures var t := Step(s, Sent); t.frame.Scan? && ScanInv(t, listing, before)
  {
    hide Record, ScanInv;
    if Sending(s) {
      RecordKeepsScan(s, listing, before);
    }
  }

  lemma SendFailedKeepsScan(s: State, listing: seq<BusMessage>, before: map<string, real>)
    requires s.frame.Scan? && ScanInv(s, listing, before)
    ensures var t := Step(s, SendFailed); t.frame.Scan? && ScanInv(t, listing, before)
  {
    hide ScanInv;
    if Sending(s) {
      FailureKeepsScan(s, listing, before);
    }
  }

  lemma OtherStepsKeepScan(s: State, e: Event, listing: seq<BusMessage>, before: map<string, real>)
    requires s.frame.Scan? && ScanInv(s, listing, before)
    requires !e.BeginScan? && !e.EndScan? && !e.Tap? && !e.ScanNext? && !e.Sent? && !e.SendFailed?
    ensures Step(s, e).frame.Scan? ==> ScanInv(Step(s, e), listing, before)
  {
    hide ScanInv, StartUp;
    if Step(s, e).frame.Scan? {
      ScanCarriesOver(s, Step(s, e), listing, before);
    }
  }

  lemma StepKeepsScan(s: State, e: Event, listing: seq<BusMessage>, before: map<string, real>)
    requires s.frame.Scan? && ScanInv(s, listing, before) && SameStemSameMessage(listing)
    requires !e.BeginScan? && !e.EndScan?
    ensures Step(s, e).frame.Scan? ==> ScanInv(Step(s, e), listing, before)
  {
    hide Step, ScanInv, SameStemSameMessage;
    match e {
      case Tap(reply, draft, writes) => TapStepKeepsScan(s, reply, draft, writes, listing, before);
      case ScanNext(moveWorks) => ScanNextKeepsScan(s, moveWorks, listing, before);
      case Sent => SentKeepsScan(s, listing, before);
      case SendFailed => SendFailedKeepsScan(s, listing, before);
      case _ => OtherStepsKeepScan(s, e, listing, before);
    }
  }

  predicate SameScan(events: seq<Event>)
  {
    forall i :: 0 <= i < |events| ==> !events[i].BeginScan? && !events[i].EndScan?
  }

  lemma {:induction false} ScanRunKeepsInv(s: State, more: seq<Event>, listing: seq<BusMessage>,
      before: map<string, real>)
    requires s.frame.Scan? && ScanInv(s, listing, before) && SameStemSameMessage(listing) && SameScan(more)
    ensures Run(s, more).frame.Scan? ==> ScanInv(Run(s, more), listing, before)
  {
    if more != [] {
      var shorter := more[..|more| - 1];
      ScanRunKeepsInv(s, shorter, listing, before);
      var u := Run(s, shorter);
      var e := more[|more| - 1];
      hide ScanInv;
      if u.frame.Scan? {
        StepKeepsScan(u, e, listing, before);
      } else {
        NoScanStays(u, e);
      }
    }
  }

  lemma NoScanStays(s: State, e: Event)
    requires s.frame.NoScan? && !e.BeginScan?
    ensures Step(s, e).frame.NoScan?
  {
    if e.Tap? {
      TapTouchesOnly(s, e.reply, e.draft, e.writes);
    }
    hide AnswerTap;
  }

  /**
   * A scan that gets to the end of its listing, whatever arrives, is tapped or
   * fails meanwhile, has put every listed message that was not surfaced before to
   * the policy or into quarantine. Its save records each of them, save those whose
   * dispatch failed, which the next scan meets again, and those a week old.
   */
  lemma CompletedScanSettlesAll(events: seq<Event>, listing: seq<BusMessage>, over: Overrides, more: seq<Event>,
      m: BusMessage)
    requires var s := Run(INITIAL, events); s.up && s.frame.NoScan? && ListsActive(listing, s.files.active)
    requires SameScan(more) && m in listing
    requires var u := Run(Step(Run(INITIAL, events), BeginScan(listing, over)), more);
             At(u, Between) && u.frame.todo == []
    ensures var s := Run(INITIAL, events);
            var u := Run(Step(s, BeginScan(listing, over)), more);
            var t := Step(u, EndScan(true));
            && (m.stem in s.files.surfaced || m.stem in t.log.movedTo || m in t.log.acted)
            && (m.stem in t.files.surfaced || m.stem in t.log.movedTo || m.stem in t.log.failing
                || (m.stem in u.frame.seen && u.frame.seen[m.stem] < t.clock - PRUNE_SECONDS))
  {
    var s := Run(INITIAL, events);
    var b := Step(s, BeginScan(listing, over));
    BeginScanInv(s, listing, over);
    ScanRunKeepsInv(b, more, listing, s.files.surfaced);
    var u := Run(b, more);
    hide Run;
    assert (Settled(u, m) && Asked(u, m, s.files.surfaced));
    EndScanSaves(u, m.stem);
  }

  lemma BeginScanInv(s: State, listing: seq<BusMessage>, over: Overrides)
    requires s.up && s.frame.NoScan? && ListsActive(listing, s.files.active)
    ensures var b := Step(s, BeginScan(listing, over));
            b.frame.Scan? && ScanInv(b, listing, s.files.surfaced) && SameStemSameMessage(listing)
  {
  }

  lemma EndScanSaves(u: State, stem: string)
    requires At(u, Between) && u.frame.todo == [] && (!u.frame.changed ==> u.frame.seen == u.files.surfaced)
    ensures var t := Step(u, EndScan(true));
            && t.log.movedTo == u.log.movedTo && t.log.failing == u.log.failing && t.log.acted == u.log.acted
            && t.clock == u.clock
            && (stem in u.frame.seen ==>
                  stem in t.files.surfaced || u.frame.seen[stem] < t.clock - PRUNE_SECONDS)
  {
  }

  // ----- scans use no file name --------------------------------------------------------

  lemma DispatchUsesNoName(s: State, m: BusMessage, d: Decision)
    requires s.frame.Scan?
    ensures Dispatch(s, m, d).log.arrived == s.log.arrived
  {
  }

  lemma ProcessUsesNoName(s: State, moveWorks: bool)
    requires s.frame.Scan? && s.frame.todo != []
    ensures ProcessNext(s, moveWorks).log.arrived == s.log.arrived
  {
    hide Decide, VerifyProvenance, Privileged, QuarantineName, Dispatch;
    var m := s.frame.todo[0];
    var t := s.(frame := s.frame.(todo := s.frame.todo[1..]));
    DispatchUsesNoName(t, m, Decide(m, t.frame.overrides));
  }

  lemma ScanStepsUseNoName(s: State, e: Event)
    requires e.BeginScan? || e.ScanNext? || e.AlertDone? || e.Sent? || e.SendFailed? || e.EndScan?
    ensures Step(s, e).log.arrived == s.log.arrived
  {
    if e.ScanNext? && At(s, Between) && s.frame.todo != [] {
      ProcessUsesNoName(s, e.moveWorks);
    }
    hide ProcessNext, AnswerTap, StartUp;
  }
}
