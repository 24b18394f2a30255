/**
 * The bus surfacing pipeline as a state machine: message files, acks, surfaced
 * state and quarantine on disk; pending cards and the suspended scan in memory.
 * A scan is a coroutine, so taps fall between its steps; crashes and restarts
 * fall anywhere.
 */
module BusMachine {
  import opened Text
  import opened SurfacePolicy
  import opened Provenance

  const PRUNE_SECONDS := 604800.0

  datatype Ack = Approved | Rejected | Acknowledged

  datatype Files = Files(
    active: map<string, BusMessage>, acks: map<string, Ack>,
    surfaced: map<string, real>, quarantine: map<string, BusMessage>)

  /** Where a scan is suspended: between two messages, or at one of its awaits. */
  datatype Await = Between | Alerting | SendingCard(msg: BusMessage) | SendingInfo(msg: BusMessage)

  /** The local variables of a running scan. */
  datatype Frame =
    | NoScan
    | Scan(seen: map<string, real>, now: real, overrides: Overrides, todo: seq<BusMessage>, changed: bool, at: Await)

  /** What has happened so far; no step reads it to decide what the source does. */
  datatype History = History(
    arrived: map<string, BusMessage>,   // first content of every file name ever used
    archived: set<string>,              // removed by others
    clobbered: set<string>,             // file names a bridge write used a second time
    movedTo: map<string, string>,       // quarantine name by stem
    cards: map<string, nat>,            // cards registered by the watcher
    decisions: map<string, seq<Ack>>,   // completed decisions
    torn: set<string>,                  // an ack was written and the write after it failed
    elsewhere: set<string>,             // acked by something other than a tap
    acted: set<BusMessage>,             // messages the policy was asked about
    synced: set<BusMessage>,            // messages given to PM sync
    recorded: map<string, seq<real>>,   // scan times whose surfacing reached the state file
    failing: set<string>)               // last dispatch failed

  datatype State = State(
    files: Files, up: bool, pending: map<string, BusMessage>, frame: Frame,
    ledger: Ledger, clock: real, log: History)

  datatype Reply = Reply(requestId: string, action: string, comment: string)

  /** How the file writes of a tap go: the first fails, the one after the ack fails, or none. */
  datatype Writes = NothingWritten | OnlyTheAck | AllWritten

  /** What the clock and the rendering supply for the one file a tap may add. */
  datatype Draft = Draft(stamp: string, id: string, raw: string)

  datatype Event =
    | Arrive(msg: BusMessage)
    | Archive(stem: string)
    | AckElsewhere(stem: string, ack: Ack)   // a decision made on the workspace itself
    | Confirm(record: (string, string))
    | Tick(seconds: real)
    | Start
    | Stop
    | CancelScan
    | Crash
    | BeginScan(listing: seq<BusMessage>, overrides: Overrides)
    | ScanNext(moveWorks: bool)
    | AlertDone
    | Sent
    | SendFailed
    | EndScan(saveWorks: bool)
    | Tap(reply: Reply, draft: Draft, writes: Writes)

  // ----- lookups -----------------------------------------------------------

  function Cards(s: State, stem: string): nat
  {
    if stem in s.log.cards then s.log.cards[stem] else 0
  }

  function Decisions(s: State, stem: string): seq<Ack>
  {
    if stem in s.log.decisions then s.log.decisions[stem] else []
  }

  function Recorded(s: State, stem: string): seq<real>
  {
    if stem in s.log.recorded then s.log.recorded[stem] else []
  }

  /** The surfaced state as the running scan sees it, else as the file has it. */
  function Seen(s: State): map<string, real>
  {
    if s.frame.Scan? then s.frame.seen else s.files.surfaced
  }

  // ----- restart recovery ----------------------------------------------------

  predicate Undecided(files: Files, stem: string)
  {
    stem in files.active && stem in files.surfaced && stem !in files.acks
  }

  function Recovered(files: Files): map<string, BusMessage>
  {
    map stem | stem in files.active && Undecided(files, stem) && Interactive(files.active[stem]) :: files.active[stem]
  }

  function StartUp(s: State): State
  {
    s.(up := true,
       pending := Recovered(s.files) + s.pending,
       log := s.log.(
         acted := s.log.acted + set k | k in s.files.active && Undecided(s.files, k) :: s.files.active[k]))
  }

  // ----- one scan --------------------------------------------------------------

  function Record(s: State, m: BusMessage): State
    requires s.frame.Scan?
  {
    s.(frame := s.frame.(seen := s.frame.seen[m.stem := s.frame.now], changed := true, at := Between),
       log := s.log.(synced := s.log.synced + {m}, failing := s.log.failing - {m.stem}))
  }

  function MoveToQuarantine(s: State, m: BusMessage): State
    requires s.frame.Scan? && m.stem in s.files.active
  {
    var name := QuarantineName(s.files.quarantine.Keys, m.stem);
    s.(files := s.files.(active := s.files.active - {m.stem},
                         quarantine := s.files.quarantine[name := s.files.active[m.stem]]),
       frame := s.frame.(at := Alerting),
       log := s.log.(movedTo := s.log.movedTo[m.stem := name]))
  }

  function Dispatch(s: State, m: BusMessage, d: Decision): State
    requires s.frame.Scan?
  {
    var t := s.(log := s.log.(acted := s.log.acted + {m}));
    if !d.surface then Record(t, m)
    else if d.interactive then
      t.(pending := t.pending[m.stem := m],
         frame := t.frame.(at := SendingCard(m)),
         log := t.log.(cards := t.log.cards[m.stem := Cards(t, m.stem) + 1]))
    else t.(frame := t.frame.(at := SendingInfo(m)))
  }

  function ProcessNext(s: State, moveWorks: bool): State
    requires s.frame.Scan? && s.frame.todo != []
  {
    var m := s.frame.todo[0];
    var t := s.(frame := s.frame.(todo := s.frame.todo[1..]));
    if m.stem in s.frame.seen then t
    else if Privileged(m) && !VerifyProvenance(m, s.files.active, s.ledger) then
      if moveWorks && m.stem in s.files.active then MoveToQuarantine(t, m) else s.(frame := NoScan)
    else Dispatch(t, m, Decide(m, t.frame.overrides))
  }

  function Pruned(seen: map<string, real>, clock: real): map<string, real>
  {
    map k | k in seen && seen[k] >= clock - PRUNE_SECONDS :: seen[k]
  }

  /** Stems whose surfacing this save puts on disk for the first time. */
  function NewlyRecorded(s: State): set<string>
    requires s.frame.Scan?
  {
    set k | k in Pruned(s.frame.seen, s.clock) && k !in s.files.surfaced
  }

  function Save(s: State): State
    requires s.frame.Scan?
  {
    s.(files := s.files.(surfaced := Pruned(s.frame.seen, s.clock)),
       log := s.log.(recorded := map k | k in s.log.recorded.Keys + NewlyRecorded(s) ::
                       if k in NewlyRecorded(s) then Recorded(s, k) + [s.frame.seen[k]] else s.log.recorded[k]))
  }

  // ----- taps --------------------------------------------------------------------

  function Proposer(m: BusMessage): string
  {
    if m.sender == "" then "all" else m.sender
  }

  function DecisionFile(m: BusMessage, ack: Ack, draft: Draft): BusMessage
    requires ack != Acknowledged
  {
    if ack == Approved then
      BusMessage(draft.stamp + "-human-to-all-spec-change-approved", draft.id, "spec-change-approved",
                 "human", "all", "high", "", "", draft.raw)
    else
      BusMessage(draft.stamp + "-human-to-" + Proposer(m) + "-spec-change-rejected", draft.id, "spec-change-rejected",
                 "human", Proposer(m), "normal", "", "", draft.raw)
  }

  function ReplyFile(m: BusMessage, draft: Draft): BusMessage
  {
    BusMessage(draft.stamp + "-human-to-" + Proposer(m) + "-reply", draft.id, "info",
               "human", Proposer(m), "normal", "", "", draft.raw)
  }

  /** `write_text` replaces a file of the same name. */
  function WriteMessage(s: State, m: BusMessage): State
  {
    s.(files := s.files.(active := s.files.active[m.stem := m]),
       log := if m.stem in s.log.arrived then s.log.(clobbered := s.log.clobbered + {m.stem})
              else s.log.(arrived := s.log.arrived[m.stem := m]))
  }

  function WriteAck(s: State, stem: string, ack: Ack): State
  {
    s.(files := s.files.(acks := s.files.acks[stem := ack]))
  }

  /** The decision an action asks for on this card, if any. */
  function Decided(m: BusMessage, action: string): Option<Ack>
  {
    if action == "acknowledge" then Some(Acknowledged)
    else if action !in {"approve", "reject"} then None
    else if m.kind != SCR then Some(Acknowledged)
    else Some(if action == "approve" then Approved else Rejected)
  }

  /** The file that follows the ack: always for a decision, with a comment for an acknowledgement. */
  function Follower(m: BusMessage, ack: Ack, comment: string, draft: Draft): Option<BusMessage>
  {
    if ack != Acknowledged then Some(DecisionFile(m, ack, draft))
    else if comment != "" then Some(ReplyFile(m, draft))
    else None
  }

  /** Ack, then the file that follows it, then the card leaves the table. */
  function Conclude(s: State, m: BusMessage, ack: Ack, requestId: string, follower: Option<BusMessage>,
      writes: Writes): State
  {
    if writes == NothingWritten then s
    else if writes == OnlyTheAck && follower.Some? then
      var t := WriteAck(s, m.stem, ack);
      t.(log := t.log.(torn := t.log.torn + {m.stem}))
    else
      var t := WriteAck(s, m.stem, ack);
      var u := if follower.Some? then WriteMessage(t, follower.value) else t;
      u.(pending := u.pending - {requestId},
         log := u.log.(decisions := u.log.decisions[m.stem := Decisions(u, m.stem) + [ack]]))
  }

  function AnswerTap(s: State, reply: Reply, draft: Draft, writes: Writes): State
  {
    if reply.requestId !in s.pending then s
    else
      var m := s.pending[reply.requestId];
      if reply.action == "comment" then
        if Strip(reply.comment) != "" && writes == AllWritten then WriteMessage(s, ReplyFile(m, draft)) else s
      else match Decided(m, reply.action)
        case None => s
        case Some(ack) => Conclude(s, m, ack, reply.requestId, Follower(m, ack, reply.comment, draft), writes)
  }

  // ----- the machine -----------------------------------------------------------------

  predicate ListsActive(listing: seq<BusMessage>, active: map<string, BusMessage>)
  {
    forall m :: m in listing ==> m.stem in active && active[m.stem] == m
  }

  predicate At(s: State, at: Await)
  {
    s.frame.Scan? && s.frame.at == at
  }

  predicate Sending(s: State)
  {
    s.frame.Scan? && (s.frame.at.SendingCard? || s.frame.at.SendingInfo?)
  }

  /** An event that is not possible in `s` changes nothing. */
  function Step(s: State, e: Event): State
  {
    match e
    case Arrive(m) =>
      if m.stem in s.log.arrived then s
      else s.(files := s.files.(active := s.files.active[m.stem := m]),
              log := s.log.(arrived := s.log.arrived[m.stem := m]))
    case Archive(stem) =>
      if stem !in s.files.active then s
      else s.(files := s.files.(active := s.files.active - {stem}),
              log := s.log.(archived := s.log.archived + {stem}))
    case AckElsewhere(stem, ack) =>
      WriteAck(s, stem, ack).(log := s.log.(elsewhere := s.log.elsewhere + {stem}))
    case Confirm(record) => s.(ledger := s.ledger + {record})
    case Tick(seconds) => if seconds >= 0.0 then s.(clock := s.clock + seconds) else s
    case Start => if !s.up && s.frame.NoScan? then StartUp(s) else s
    case Stop => s.(up := false, pending := map[])
    case CancelScan => if s.up then s else s.(frame := NoScan)
    case Crash => s.(up := false, pending := map[], frame := NoScan)
    case BeginScan(listing, overrides) =>
      if s.up && s.frame.NoScan? && ListsActive(listing, s.files.active)
      then s.(frame := Scan(s.files.surfaced, s.clock, overrides, listing, false, Between))
      else s
    case ScanNext(moveWorks) => if At(s, Between) && s.frame.todo != [] then ProcessNext(s, moveWorks) else s
    case AlertDone => if At(s, Alerting) then s.(frame := s.frame.(at := Between)) else s
    case Sent => if Sending(s) then Record(s, s.frame.at.msg) else s
    case SendFailed =>
      if !Sending(s) then s
      else
        var m := s.frame.at.msg;
        s.(pending := if s.frame.at.SendingCard? then s.pending - {m.stem} else s.pending,
           frame := s.frame.(at := Between),
           log := s.log.(failing := s.log.failing + {m.stem}))
    case EndScan(saveWorks) =>
      if At(s, Between) && s.frame.todo == []
      then (if s.frame.changed && saveWorks then Save(s) else s).(frame := NoScan)
      else s
    case Tap(reply, draft, writes) => if s.up then AnswerTap(s, reply, draft, writes) else s
  }

  const INITIAL := State(
    Files(map[], map[], map[], map[]), false, map[], NoScan, {}, 0.0,
    History(map[], {}, {}, map[], map[], map[], {}, {}, {}, {}, map[], {}))

  function Run(s: State, events: seq<Event>): State
  {
    if events == [] then s else Step(Run(s, events[..|events| - 1]), events[|events| - 1])
  }
}
