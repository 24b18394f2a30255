/**
 * The find-or-create race between client registrations (`dcr_shim.py`) against a
 * server with unique app names; the name of an app is a fingerprint.
 */
module Registration {
  import opened Text

  datatype Phase =
    | Searching
    | Creating
    | Retrying                              // the create was answered with a conflict
    | Done(clientId: string, epoch: nat)
    | Failed

  datatype Reply = Answered | Lost | NotDelivered

  datatype Caller = Caller(name: string, phase: Phase)

  datatype State = State(
    apps: map<string, string>,                // client id by unique app name
    callers: seq<Caller>,
    owner: map<string, (string, nat)>,        // name and epoch of every client id ever issued
    deletions: map<string, nat>)              // deletions of an app name so far

  datatype Event =
    | Register(name: string)
    | Search(caller: nat, reply: Reply)
    | Create(caller: nat, clientId: string, reply: Reply)
    | LookAgain(caller: nat, reply: Reply)
    | Delete(name: string)

  const INITIAL := State(map[], [], map[], map[])

  function Deletions(deletions: map<string, nat>, name: string): nat
  {
    if name in deletions then deletions[name] else 0
  }

  function Epoch(s: State, name: string): nat
  {
    Deletions(s.deletions, name)
  }

  function Move(s: State, c: nat, phase: Phase): State
    requires c < |s.callers|
  {
    s.(callers := s.callers[c := s.callers[c].(phase := phase)])
  }

  function Find(s: State, c: nat, reply: Reply, absent: Phase): State
    requires c < |s.callers|
  {
    var name := s.callers[c].name;
    if reply != Answered then Move(s, c, Failed)
    else if name in s.apps then Move(s, c, Done(s.apps[name], Epoch(s, name)))
    else Move(s, c, absent)
  }

  function CreateApp(s: State, c: nat, clientId: string, reply: Reply): State
    requires c < |s.callers|
  {
    var name := s.callers[c].name;
    if reply == NotDelivered then Move(s, c, Failed)
    else if name in s.apps then Move(s, c, if reply == Answered then Retrying else Failed)
    else
      Move(s, c, if reply == Answered then Done(clientId, Epoch(s, name)) else Failed).(
        apps := s.apps[name := clientId], owner := s.owner[clientId := (name, Epoch(s, name))])
  }

  function Step(s: State, e: Event): State
  {
    match e
    case Register(name) => s.(callers := s.callers + [Caller(name, Searching)])
    case Search(c, reply) => if c < |s.callers| && s.callers[c].phase.Searching? then Find(s, c, reply, Creating) else s
    case Create(c, clientId, reply) =>
      if c < |s.callers| && s.callers[c].phase.Creating? && clientId !in s.owner
      then CreateApp(s, c, clientId, reply)
      else s
    case LookAgain(c, reply) => if c < |s.callers| && s.callers[c].phase.Retrying? then Find(s, c, reply, Failed) else s
    case Delete(name) =>
      if name in s.apps then s.(apps := s.apps - {name}, deletions := s.deletions[name := Epoch(s, name) + 1]) else s
  }

  function Run(events: seq<Event>): State
  {
    if events == [] then INITIAL else Step(Run(events[..|events| - 1]), events[|events| - 1])
  }

  predicate CallerOk(c: Caller, owner: map<string, (string, nat)>)
  {
    c.phase.Done? ==> c.phase.clientId in owner && owner[c.phase.clientId] == (c.name, c.phase.epoch)
  }

  type Owners = map<string, (string, nat)>

  /** An id is of the current epoch of its name exactly when the app exists under it, and is then the only one. */
  ghost predicate ServerOk(apps: map<string, string>, owner: Owners, deletions: map<string, nat>)
  {
    && (forall n :: n in apps ==> apps[n] in owner && owner[apps[n]] == (n, Deletions(deletions, n)))
    && (forall i :: i in owner ==> owner[i].1 <= Deletions(deletions, owner[i].0))
    && (forall i :: i in owner && owner[i].1 == Deletions(deletions, owner[i].0) ==> owner[i].0 in apps)
    && (forall i, j :: i in owner && j in owner && owner[i] == owner[j] ==> i == j)
  }

  ghost predicate CallersOk(callers: seq<Caller>, owner: Owners)
  {
    forall c :: 0 <= c < |callers| ==> CallerOk(callers[c], owner)
  }

  ghost predicate Inv(s: State)
  {
    CallersOk(s.callers, s.owner) && ServerOk(s.apps, s.owner, s.deletions)
  }

  lemma NewAppKeepsServer(apps: map<string, string>, owner: Owners, deletions: map<string, nat>, name: string,
      id: string)
    requires ServerOk(apps, owner, deletions) && name !in apps && id !in owner
    ensures ServerOk(apps[name := id], owner[id := (name, Deletions(deletions, name))], deletions)
  {
  }

  lemma DeletionKeepsServer(apps: map<string, string>, owner: Owners, deletions: map<string, nat>, name: string)
    requires ServerOk(apps, owner, deletions) && name in apps
    ensures ServerOk(apps - {name}, owner, deletions[name := Deletions(deletions, name) + 1])
  {
    var after := deletions[name := Deletions(deletions, name) + 1];
    forall i | i in owner ensures owner[i].1 <= Deletions(after, owner[i].0) {
      assert owner[i].1 <= Deletions(deletions, owner[i].0);
    }
  }

  lemma MoveKeepsCallers(s: State, c: nat, phase: Phase, owner: Owners)
    requires CallersOk(s.callers, s.owner) && c < |s.callers|
    requires forall i :: i in s.owner ==> i in owner && owner[i] == s.owner[i]
    requires CallerOk(s.callers[c].(phase := phase), owner)
    ensures CallersOk(Move(s, c, phase).callers, owner)
  {
    forall d | 0 <= d < |s.callers| ensures CallerOk(Move(s, c, phase).callers[d], owner) {
      assert CallerOk(s.callers[d], s.owner);
    }
  }

  lemma CreateKeepsInv(s: State, c: nat, clientId: string, reply: Reply)
    requires Inv(s) && c < |s.callers| && clientId !in s.owner
    ensures Inv(CreateApp(s, c, clientId, reply))
  {
    var name := s.callers[c].name;
    var t := CreateApp(s, c, clientId, reply);
    MoveKeepsCallers(s, c, t.callers[c].phase, t.owner);
    if reply != NotDelivered && name !in s.apps {
      NewAppKeepsServer(s.apps, s.owner, s.deletions, name, clientId);
    }
  }

  lemma FindKeepsInv(s: State, c: nat, reply: Reply, absent: Phase)
    requires Inv(s) && c < |s.callers| && !absent.Done?
    ensures Inv(Find(s, c, reply, absent))
  {
    MoveKeepsCallers(s, c, Find(s, c, reply, absent).callers[c].phase, s.owner);
  }

  lemma StepKeepsInv(s: State, e: Event)
    requires Inv(s)
    ensures Inv(Step(s, e))
  {
    hide CreateApp, Find, ServerOk;
    match e {
      case Register(name) =>
      case Search(c, reply) => if c < |s.callers| { FindKeepsInv(s, c, reply, Creating); }
      case LookAgain(c, reply) => if c < |s.callers| { FindKeepsInv(s, c, reply, Failed); }
      case Create(c, clientId, reply) =>
        if c < |s.callers| && clientId !in s.owner { CreateKeepsInv(s, c, clientId, reply); }
      case Delete(name) => if name in s.apps { DeletionKeepsServer(s.apps, s.owner, s.deletions, name); }
    }
  }

  lemma {:induction false} RunKeepsInv(events: seq<Event>)
    ensures Inv(Run(events))
  {
    if events != [] {
      RunKeepsInv(events[..|events| - 1]);
      StepKeepsInv(Run(events[..|events| - 1]), events[|events| - 1]);
    }
  }

  /**
   * Over every interleaving, lost replies included, two callers that succeed for
   * one fingerprint hold the same client id exactly when no deletion of the app
   * fell between their answers.
   */
  lemma SameClientExactly(events: seq<Event>, c: nat, d: nat)
    requires var s := Run(events);
             && c < |s.callers| && d < |s.callers| && s.callers[c].name == s.callers[d].name
             && s.callers[c].phase.Done? && s.callers[d].phase.Done?
    ensures var s := Run(events);
            s.callers[c].phase.clientId == s.callers[d].phase.clientId
            <==> s.callers[c].phase.epoch == s.callers[d].phase.epoch
  {
    RunKeepsInv(events);
    var s := Run(events);
    assert CallerOk(s.callers[c], s.owner) && CallerOk(s.callers[d], s.owner);
  }

  lemma {:induction false} NoDeletionNoEpoch(events: seq<Event>, name: string)
    requires forall i :: 0 <= i < |events| ==> events[i] != Delete(name)
    ensures Epoch(Run(events), name) == 0
  {
    if events != [] {
      NoDeletionNoEpoch(events[..|events| - 1], name);
    }
  }

  /** Without a deletion at most one app is created for a fingerprint and every caller that succeeds gets its id. */
  lemma ConcurrentRegistrationsShareOneApp(events: seq<Event>, name: string, i: string, j: string, c: nat)
    requires forall n :: 0 <= n < |events| ==> events[n] != Delete(name)
    requires var s := Run(events);
             && i in s.owner && s.owner[i].0 == name && j in s.owner && s.owner[j].0 == name
             && c < |s.callers| && s.callers[c].name == name
    ensures i == j && name in Run(events).apps && Run(events).apps[name] == i
    ensures Run(events).callers[c].phase.Done? ==> Run(events).callers[c].phase.clientId == i
  {
    RunKeepsInv(events);
    NoDeletionNoEpoch(events, name);
    hide Run, Inv, Epoch;
    OneAppPerEpoch(Run(events), name, i, j, c);
  }

  lemma OneAppPerEpoch(s: State, name: string, i: string, j: string, c: nat)
    requires Inv(s) && Epoch(s, name) == 0
    requires i in s.owner && s.owner[i].0 == name && j in s.owner && s.owner[j].0 == name
    requires c < |s.callers| && s.callers[c].name == name
    ensures i == j && name in s.apps && s.apps[name] == i
    ensures s.callers[c].phase.Done? ==> s.callers[c].phase.clientId == i
  {
    assert CallerOk(s.callers[c], s.owner);
    assert s.owner[i] == (name, 0) && s.owner[j] == (name, 0);
    if s.callers[c].phase.Done? {
      assert s.owner[s.callers[c].phase.clientId].1 <= Epoch(s, name);
    }
  }

  // ----- what each request does ---------------------------------------------------------

  /** Only the caller's phase is different. */
  predicate OnlyMoved(s: State, t: State, c: nat, phase: Phase)
    requires c < |s.callers|
  {
    t == s.(callers := s.callers[c := Caller(s.callers[c].name, phase)])
  }

  lemma RegisterEnters(s: State, name: string)
    ensures Step(s, Register(name)) == s.(callers := s.callers + [Caller(name, Searching)])
  {
  }

  /** A look-up takes the client of the app's name; without one the caller creates it, or gives up the second time. */
  lemma LookUpEffect(s: State, c: nat, reply: Reply)
    requires c < |s.callers| && s.callers[c].phase in {Searching, Retrying}
    ensures var name := s.callers[c].name;
            var again := s.callers[c].phase == Retrying;
            OnlyMoved(s, Step(s, if again then LookAgain(c, reply) else Search(c, reply)), c,
              if reply != Answered then Failed
              else if name in s.apps then Done(s.apps[name], if name in s.deletions then s.deletions[name] else 0)
              else if again then Failed else Creating)
  {
    hide CreateApp;
  }

  /** A create adds an app only where none has the name; a conflict sends the caller to look again. */
  lemma CreateEffect(s: State, c: nat, id: string, reply: Reply)
    requires c < |s.callers| && s.callers[c].phase == Creating && id !in s.owner
    ensures var name := s.callers[c].name;
            var t := Step(s, Create(c, id, reply));
            if reply == NotDelivered then OnlyMoved(s, t, c, Failed)
            else if name in s.apps then OnlyMoved(s, t, c, if reply == Lost then Failed else Retrying)
            else
              && t.apps == s.apps[name := id] && t.deletions == s.deletions && |t.callers| == |s.callers|
              && (forall d :: 0 <= d < |s.callers| && d != c ==> t.callers[d] == s.callers[d])
              && t.callers[c].name == name
              && (if reply == Lost then t.callers[c].phase == Failed
                  else t.callers[c].phase.Done? && t.callers[c].phase.clientId == id)
  {
    hide Find;
  }

  lemma DeleteEffect(s: State, name: string)
    requires name in s.apps
    ensures var t := Step(s, Delete(name));
            && t == s.(apps := s.apps - {name}, deletions := t.deletions)
            && Deletions(t.deletions, name) == Deletions(s.deletions, name) + 1
  {
  }

  /** Two callers that found nothing both end with the one app that was created first. */
  lemma RacersShareTheApp(s: State, c: nat, d: nat, i: string, j: string)
    requires c < |s.callers| && d < |s.callers| && c != d && s.callers[c].name == s.callers[d].name
    requires s.callers[c].phase == Creating && s.callers[d].phase == Creating
    requires s.callers[c].name !in s.apps && i !in s.owner && j !in s.owner && i != j
    ensures var a := Step(s, Create(c, i, Answered));
            var t := Step(Step(a, Create(d, j, Answered)), LookAgain(d, Answered));
            && t.apps == s.apps[s.callers[c].name := i] && |t.callers| == |s.callers|
            && t.callers[c].phase.Done? && t.callers[c].phase.clientId == i
            && t.callers[d].phase.Done? && t.callers[d].phase.clientId == i
  {
    CreateEffect(s, c, i, Answered);
    var a := Step(s, Create(c, i, Answered));
    OwnersAfter(s, c, i, j);
    CreateEffect(a, d, j, Answered);
    LookUpEffect(Step(a, Create(d, j, Answered)), d, Answered);
    hide Step;
  }

  lemma OwnersAfter(s: State, c: nat, i: string, j: string)
    requires j !in s.owner && i != j
    ensures j !in Step(s, Create(c, i, Answered)).owner
  {
  }

  // ----- one call ---------------------------------------------------------------------

  /** `find_or_create_client`; `rival` is an app another caller creates between the search and the create. */
  class IdentityProvider {
    var apps: map<string, string>

    method FindAppByName(name: string) returns (clientId: Option<string>)
      ensures clientId == if name in apps then Some(apps[name]) else None
    {
      clientId := if name in apps then Some(apps[name]) else None;
    }

    method FindOrCreateClient(name: string, minted: string, rival: Option<string>,
        search: Reply, create: Reply, again: Reply)
      returns (clientId: Option<string>)
      modifies this`apps
      ensures name in old(apps) ==> apps == old(apps)
      ensures forall n :: n in old(apps) ==> n in apps && apps[n] == old(apps)[n]
      ensures apps.Keys <= old(apps).Keys + {name}
      ensures clientId.Some? ==> name in apps && clientId.value == apps[name]
      ensures search == create == again == Answered ==> clientId.Some?
      ensures name !in old(apps) && name in apps ==> apps[name] == rival.GetOr(minted)
    {
      if search != Answered {
        return None;
      }
      var existing := FindAppByName(name);
      if existing.Some? {
        return existing;
      }
      if rival.Some? {
        apps := apps[name := rival.value];
      }
      if create == NotDelivered {
        return None;
      }
      if name in apps {
        if create == Lost || again != Answered {
          return None;
        }
        clientId := FindAppByName(name);
        return;
      }
      apps := apps[name := minted];
      return if create == Answered then Some(minted) else None;
    }
  }
}
