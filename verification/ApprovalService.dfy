/** `_PendingApproval` and `ApprovalService` as objects updated in place. */
module ApprovalService {
  import opened Text
  import opened ApprovalMachine

  /** What happens while the hook sleeps in one chunk of its wait: snoozes at an offset, then answers. */
  datatype Turn = Turn(elapsed: real, snoozes: seq<(real, real)>, answers: seq<Response>)

  /** The answer that stands when all have been given: the last one for the request. */
  function LastFor(answers: seq<Response>, id: string): Option<Response>
  {
    if answers == [] then None
    else
      var n := |answers| - 1;
      if answers[n].requestId == id then Some(answers[n]) else LastFor(answers[..n], id)
  }

  /** The answer of the first turn that has one. */
  function AnswerOf(turns: seq<Turn>, id: string): Option<Response>
  {
    if turns == [] then None
    else if LastFor(turns[0].answers, id).Some? then LastFor(turns[0].answers, id)
    else AnswerOf(turns[1..], id)
  }

  lemma {:induction false} LastForExactly(answers: seq<Response>, id: string) returns (n: nat)
    ensures match LastFor(answers, id)
      case None => forall i :: 0 <= i < |answers| ==> answers[i].requestId != id
      case Some(r) =>
        && n < |answers| && answers[n] == r && r.requestId == id
        && forall i :: n < i < |answers| ==> answers[i].requestId != id
  {
    n := 0;
    if answers != [] {
      var last := |answers| - 1;
      if answers[last].requestId == id {
        n := last;
      } else {
        n := LastForExactly(answers[..last], id);
        assert forall i :: 0 <= i < last ==> answers[..last][i] == answers[i];
      }
    }
  }

  /** The answer the hook wakes to is the last one for it in the first turn that has any. */
  lemma {:induction false} AnswerOfExactly(turns: seq<Turn>, id: string) returns (k: nat, n: nat)
    ensures match AnswerOf(turns, id)
      case None => forall i, r :: 0 <= i < |turns| && r in turns[i].answers ==> r.requestId != id
      case Some(answer) =>
        && k < |turns| && n < |turns[k].answers| && turns[k].answers[n] == answer && answer.requestId == id
        && (forall j :: n < j < |turns[k].answers| ==> turns[k].answers[j].requestId != id)
        && forall i, r :: 0 <= i < k && r in turns[i].answers ==> r.requestId != id
  {
    k, n := 0, 0;
    if turns != [] {
      n := LastForExactly(turns[0].answers, id);
      if LastFor(turns[0].answers, id).None? {
        k, n := AnswerOfExactly(turns[1..], id);
        k := k + 1;
      }
      assert forall i :: 0 < i < |turns| ==> turns[i] == turns[1..][i - 1];
    }
    hide LastFor;
  }

  class PendingApproval {
    const id: string
    const created: real
    const timeout: real
    var answer: Option<Response>
    var handle: Option<int>
    var deadline: real
    ghost var phase: Phase
    ghost var written: seq<Response>
    ghost var floors: set<real>

    ghost function View(): Slot
      reads this
    {
      Slot(id, created, timeout, deadline, answer, handle, phase, written, floors)
    }

    constructor (id: string, now: real, timeout: real)
      ensures View() == NewSlot(id, now, timeout)
    {
      this.id, created, this.timeout := id, now, timeout;
      answer, handle := None, None;
      deadline := now + timeout;
      phase, written, floors := SendingCard, [], {now + timeout};
    }

    method Resolve(response: Response)
      modifies this`answer, this`written
      ensures View() == Resolved(old(View()), response)
    {
      answer := Some(response);
      written := written + [response];
    }

    method ExtendBy(now: real, seconds: real)
      modifies this`deadline, this`floors
      ensures View() == Extended(old(View()), now, seconds)
    {
      var newDeadline := now + seconds;
      if newDeadline > deadline {
        deadline := newDeadline;
      }
      floors := floors + {now + seconds};
    }

    /** Chunks of five seconds left until the deadline, counting a started one. */
    ghost function Chunks(clock: real): nat
      reads this
    {
      if deadline <= clock then 0 else ((deadline - clock) / POLL_SECONDS).Floor + 1
    }

    /** `wait`: sleep in chunks until an answer is there or the deadline, which snoozes may move, has passed. */
    method Wait(now: real, turns: seq<Turn>) returns (response: Response, end: real)
      requires phase.Top? && SlotInv(View(), now)
      modifies this
      ensures phase.Finishing? && phase.response == response && phase.at == end && SlotInv(View(), end)
      ensures now <= end && deadline >= old(deadline) && floors >= old(floors) && handle == old(handle)
      ensures phase.cause == Expired ==>
                response == Response("timeout", id, "") && forall f :: f in floors ==> f <= end
      ensures phase.cause != Expired ==> phase.cause == Answered && answer == Some(response)
      ensures phase.cause == Answered && old(answer).None? ==> AnswerOf(turns, id) == Some(response)
      ensures turns == [] && old(answer).None? ==>
                phase.cause == Expired && end == Max(now, old(deadline)) && deadline == old(deadline)
    {
      hide AnswerOf, LastFor;
      var clock := now;
      var i := 0;
      assert turns[0..] == turns;
      while true
        invariant i <= |turns| && now <= clock
        invariant phase == Top && SlotInv(View(), clock) && handle == old(handle)
        invariant deadline >= old(deadline) && floors >= old(floors)
        invariant old(answer).None? ==> answer.None? && AnswerOf(turns, id) == AnswerOf(turns[i..], id)
        invariant turns == [] && old(answer).None? ==> deadline == old(deadline) && clock <= Max(now, deadline)
        decreases |turns| - i, Chunks(clock)
      {
        var remaining := deadline - clock;
        if remaining <= 0.0 {
          response := Response("timeout", id, "");
          phase := Finishing(response, Expired, clock);
          return response, clock;
        }
        if answer.None? {
          var chunk := Min(remaining, POLL_SECONDS);
          if i < |turns| {
            AnswerAhead(turns, i);
            var slept := Sleep(clock, chunk, turns[i]);
            clock := clock + slept;
            i := i + 1;
          } else {
            clock := clock + chunk;
          }
        }
        if answer.Some? {
          response := answer.value;
          phase := Finishing(response, Answered, clock);
          return response, clock;
        }
      }
    }

    /** One chunk in which something happens: it ends early with an answer, else not before its time. */
    method Sleep(clock: real, chunk: real, turn: Turn) returns (slept: real)
      requires phase.Top? && SlotInv(View(), clock) && chunk > 0.0 && answer.None?
      modifies this`deadline, this`floors, this`answer, this`written
      ensures SlotInv(View(), clock) && deadline >= old(deadline) && floors >= old(floors)
      ensures answer == LastFor(turn.answers, id) && slept >= 0.0 && (answer.None? ==> slept >= chunk)
    {
      Endure(clock, turn);
      slept := if answer.Some? then Max(turn.elapsed, 0.0) else Max(turn.elapsed, chunk);
    }

    lemma AnswerAhead(turns: seq<Turn>, i: nat)
      requires i < |turns|
      ensures AnswerOf(turns[i..], id)
              == if LastFor(turns[i].answers, id).Some? then LastFor(turns[i].answers, id)
                 else AnswerOf(turns[i + 1..], id)
    {
      assert turns[i..][0] == turns[i] && turns[i..][1..] == turns[i + 1..];
    }

    /** Other threads' calls on this slot during one chunk. */
    method Endure(clock: real, turn: Turn)
      requires phase.Top? && SlotInv(View(), clock)
      modifies this`deadline, this`floors, this`answer, this`written
      ensures SlotInv(View(), clock) && deadline >= old(deadline) && floors >= old(floors)
      ensures answer == if LastFor(turn.answers, id).Some? then LastFor(turn.answers, id) else old(answer)
    {
      for k := 0 to |turn.snoozes|
        invariant SlotInv(View(), clock) && deadline >= old(deadline) && floors >= old(floors)
        invariant answer == old(answer)
      {
        ExtendBy(clock + turn.snoozes[k].0, turn.snoozes[k].1 + SNOOZE_BUFFER);
      }
      for k := 0 to |turn.answers|
        invariant SlotInv(View(), clock) && deadline >= old(deadline) && floors >= old(floors)
        invariant answer == if LastFor(turn.answers[..k], id).Some? then LastFor(turn.answers[..k], id) else old(answer)
      {
        assert turn.answers[..k + 1][..k] == turn.answers[..k];
        if turn.answers[k].requestId == id {
          Resolve(turn.answers[k]);
        }
      }
      assert turn.answers[..|turn.answers|] == turn.answers;
    }
  }

  class ApprovalService {
    var pending: map<string, PendingApproval>

    ghost predicate Valid()
      reads this
    {
      forall id :: id in pending ==> pending[id].id == id
    }

    constructor ()
      ensures Valid() && pending == map[]
    {
      pending := map[];
    }

    method Get(requestId: string) returns (p: PendingApproval?)
      ensures requestId in pending ==> p == pending[requestId]
      ensures requestId !in pending ==> p == null
    {
      if requestId in pending {
        p := pending[requestId];
      } else {
        p := null;
      }
    }

    /** False, and nothing changed, when nothing is pending under the id. */
    method Resolve(requestId: string, response: Response) returns (found: bool)
      requires Valid()
      modifies if requestId in pending then {pending[requestId]} else {}
      ensures Valid() && pending == old(pending) && (found <==> requestId in pending)
      ensures found ==> pending[requestId].View() == Resolved(old(pending[requestId].View()), response)
    {
      var p := Get(requestId);
      if p == null {
        return false;
      }
      p.Resolve(response);
      return true;
    }

    /** Every entry leaves the table and is answered with `ask` and its own id. */
    method CancelAll()
      requires Valid()
      modifies this`pending, pending.Values
      ensures pending == map[]
      ensures forall id :: id in old(pending) ==>
                old(pending)[id].View() == Resolved(old(pending[id].View()), ShutdownResponse(id))
    {
      hide ShutdownResponse;
      var pendings := pending;
      pending := map[];
      var todo := pendings.Keys;
      while todo != {}
        invariant todo <= pendings.Keys && pending == map[]
        invariant forall id :: id in pendings && id in todo ==> pendings[id].View() == old(pendings[id].View())
        invariant forall id :: id in pendings && id !in todo ==>
                    pendings[id].View() == Resolved(old(pendings[id].View()), ShutdownResponse(id))
        decreases todo
      {
        var id :| id in todo;
        assert forall other :: other in pendings && other != id ==> pendings[other] != pendings[id];
        pendings[id].Resolve(ShutdownResponse(id));
        todo := todo - {id};
      }
    }

    /** Table entry, card, wait, and the entry's removal on every way out. */
    method HandleApproval(id: string, timeout: real, now: real, sent: Option<Option<int>>, turns: seq<Turn>)
      returns (response: Response, end: real)
      requires Valid()
      modifies this`pending
      ensures Valid() && pending == old(pending) - {id}
      ensures response.requestId == id && end >= now
      ensures sent.None? ==> response == Response("ask", id, "daemon:send-failed")
      ensures sent.Some? ==>
                || AnswerOf(turns, id) == Some(response)
                || (response == Response("timeout", id, "") && end >= now + timeout)
      ensures sent.Some? && turns == [] ==> response == Response("timeout", id, "") && end == Max(now, now + timeout)
    {
      var p := new PendingApproval(id, now, timeout);
      pending := pending[id := p];
      if sent.None? {
        pending := pending - {id};
        return Response("ask", id, "daemon:send-failed"), now;
      }
      if sent.value.Some? {
        p.handle := sent.value;
      }
      p.phase := Top;
      response, end := p.Wait(now, turns);
      pending := pending - {id};
    }

    /** Extends the deadline of a pending request and says when to re-post; nothing for an unknown id. */
    method HandleSnooze(requestId: string, now: real, seconds: real) returns (due: Option<real>)
      requires Valid()
      modifies if requestId in pending then {pending[requestId]} else {}
      ensures Valid() && (due.Some? <==> requestId in pending)
      ensures due.Some? ==>
                && due.value == now + seconds && due.value < pending[requestId].deadline
                && pending[requestId].View() == Extended(old(pending[requestId].View()), now, seconds + SNOOZE_BUFFER)
    {
      var p := Get(requestId);
      if p == null {
        return None;
      }
      p.ExtendBy(now, seconds + SNOOZE_BUFFER);
      return Some(now + seconds);
    }

    /** The new card's handle is kept only if the entry is still the one the re-post was for. */
    method StoreRepost(requestId: string, found: PendingApproval, newHandle: int)
      modifies if requestId in pending && pending[requestId] == found then {found} else {}
      ensures requestId in pending && pending[requestId] == found ==>
                found.View() == old(found.View()).(handle := Some(newHandle))
    {
      if requestId in pending && pending[requestId] == found {
        found.handle := Some(newHandle);
      }
    }
  }
}
