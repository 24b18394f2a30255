/**
 * Spawning one warm session per (agent, human) (`handle_bus_event`): the check,
 * the runner call, the claim and the linger start are separate steps, so calls
 * for one pair can interleave with each other and with expiring timers.
 */
module Spawn {
  import L = Linger

  type Key = L.Key

  datatype Outcome = WarmSession | SpawnFailed | InteractiveReview | Spawned(session: string, claimed: bool)

  datatype Phase =
    | Checking
    | Calling                                     // the runner is spawning
    | Claiming(session: string)
    | Lingering(session: string, claimed: bool)   // about to start the linger timer
    | Finished(outcome: Outcome)

  datatype Call = Call(key: Key, change: string, headless: bool, phase: Phase)

  datatype State = State(
    rows: map<Key, string>, linger: L.State, calls: seq<Call>,
    used: set<string>)      // session ids the runner has given out

  datatype Event =
    | Arrive(key: Key, change: string, headless: bool)
    | Check(call: nat)
    | SpawnOk(call: nat, session: string)
    | SpawnFails(call: nat)
    | Claim(call: nat)
    | StartLinger(call: nat, delay: real)
    | Timer(event: L.Event)
    | Expire(callback: nat)   // on_expire releases its own session

  const INITIAL := State(map[], L.INITIAL, [], {})

  function Move(s: State, c: nat, phase: Phase): State
    requires c < |s.calls|
  {
    s.(calls := s.calls[c := s.calls[c].(phase := phase)])
  }

  /** `release_session`: only the session named. */
  function Released(rows: map<Key, string>, key: Key, session: string): map<Key, string>
  {
    if key in rows && rows[key] == session then rows - {key} else rows
  }

  function Step(s: State, e: Event): State
  {
    match e
    case Arrive(key, change, headless) => s.(calls := s.calls + [Call(key, change, headless, Checking)])
    case Check(c) =>
      if c < |s.calls| && s.calls[c].phase.Checking? then
        Move(s, c, if s.calls[c].key in s.rows then Finished(WarmSession)
                   else if s.calls[c].headless then Calling else Finished(InteractiveReview))
      else s
    case SpawnOk(c, session) =>
      if c < |s.calls| && s.calls[c].phase.Calling? && session !in s.used
      then Move(s, c, Claiming(session)).(used := s.used + {session}) else s
    case SpawnFails(c) => if c < |s.calls| && s.calls[c].phase.Calling? then Move(s, c, Finished(SpawnFailed)) else s
    case Claim(c) =>
      if c < |s.calls| && s.calls[c].phase.Claiming? then
        var key, session := s.calls[c].key, s.calls[c].phase.session;
        var refused := key in s.rows && s.rows[key] != session;
        Move(s, c, Lingering(session, !refused)).(rows := if refused then s.rows else s.rows[key := session])
      else s
    case StartLinger(c, delay) =>
      if c < |s.calls| && s.calls[c].phase.Lingering? then
        var p := s.calls[c].phase;
        Move(s, c, Finished(Spawned(p.session, p.claimed))).(
          linger := L.Step(s.linger, L.Start(s.calls[c].key, p.session, s.calls[c].change, delay)))
      else s
    case Timer(event) =>
      if event.RunOut? || event.Fire? || event.Tick? then s.(linger := L.Step(s.linger, event)) else s
    case Expire(i) =>
      if i < |s.linger.callbacks| then
        var c := s.linger.callbacks[i];
        s.(rows := Released(s.rows, c.key, c.entry.session), linger := L.Step(s.linger, L.RunCallback(i)))
      else s
  }

  function Run(events: seq<Event>): State
  {
    if events == [] then INITIAL else Step(Run(events[..|events| - 1]), events[|events| - 1])
  }

  // ----- every interleaving --------------------------------------------------

  /** The call holds a session that has not reached the linger manager. */
  predicate Holding(c: Call)
  {
    c.phase.Claiming? || c.phase.Lingering?
  }

  predicate Lingers(linger: L.State, session: string)
  {
    || (exists k :: k in linger.entries && linger.entries[k].session == session)
    || (exists i :: 0 <= i < |linger.callbacks| && linger.callbacks[i].entry.session == session)
  }

  predicate ClaimHolds(c: Call, rows: map<Key, string>)
  {
    && (c.phase.Claiming? ==> !(c.key in rows && rows[c.key] == c.phase.session))
    && (c.phase.Lingering? ==> (c.phase.claimed <==> c.key in rows && rows[c.key] == c.phase.session))
  }

  ghost predicate Inv(s: State)
  {
    && (forall k :: k in s.rows ==> s.rows[k] in s.used)
    && (forall k :: k in s.linger.entries ==> s.linger.entries[k].session in s.used)
    && (forall i :: 0 <= i < |s.linger.callbacks| ==> s.linger.callbacks[i].entry.session in s.used)
    && (forall c :: 0 <= c < |s.calls| && Holding(s.calls[c]) ==>
          s.calls[c].phase.session in s.used && !Lingers(s.linger, s.calls[c].phase.session)
          && ClaimHolds(s.calls[c], s.rows))
    && (forall c, d :: 0 <= c < d < |s.calls| && Holding(s.calls[c]) && Holding(s.calls[d]) ==>
          s.calls[c].phase.session != s.calls[d].phase.session)
    && (forall k, i :: k in s.linger.entries && 0 <= i < |s.linger.callbacks| ==>
          s.linger.entries[k].session != s.linger.callbacks[i].entry.session)
    && (forall j, k :: j in s.linger.entries && k in s.linger.entries && j != k ==>
          s.linger.entries[j].session != s.linger.entries[k].session)
  }

  lemma StartEffect(l: L.State, key: Key, session: string, change: string, delay: real)
    ensures var t := L.Step(l, L.Start(key, session, change, delay));
            && t.callbacks == l.callbacks && t.entries.Keys == l.entries.Keys + {key}
            && t.entries[key].session == session
            && forall k :: k in t.entries && k != key ==> t.entries[k] == l.entries[k]
  {
  }

  /** A timer step either leaves entries and callbacks alone or moves one entry to the callbacks. */
  lemma TimerEffect(l: L.State, e: L.Event) returns (moved: bool, key: Key)
    requires e.RunOut? || e.Fire? || e.Tick?
    ensures var t := L.Step(l, e);
            if moved then key in l.entries && t.entries == l.entries - {key}
                          && t.callbacks == l.callbacks + [L.Callback(key, l.entries[key])]
            else t.entries == l.entries && t.callbacks == l.callbacks
  {
    moved, key := false, ("", "");
    if e.Fire? && e.timer < |l.timers| && l.timers[e.timer].Firing? {
      key := l.timers[e.timer].key;
      moved := key in l.entries;
    }
  }

  lemma TimerKeepsInv(s: State, e: L.Event)
    requires Inv(s)
    ensures Inv(Step(s, Timer(e)))
  {
    if e.RunOut? || e.Fire? || e.Tick? {
      var moved, key := TimerEffect(s.linger, e);
      var t := Step(s, Timer(e));
      forall c | 0 <= c < |t.calls| && Holding(t.calls[c]) ensures !Lingers(t.linger, t.calls[c].phase.session) {
        assert !Lingers(s.linger, s.calls[c].phase.session);
      }
    }
  }

  lemma StartLingerKeepsInv(s: State, c: nat, delay: real)
    requires Inv(s)
    ensures Inv(Step(s, StartLinger(c, delay)))
  {
    hide L.Step, ClaimHolds;
    if c < |s.calls| && s.calls[c].phase.Lingering? {
      var p := s.calls[c].phase;
      StartEffect(s.linger, s.calls[c].key, p.session, s.calls[c].change, delay);
      var t := Step(s, StartLinger(c, delay));
      assert !Lingers(s.linger, p.session);
      forall d | 0 <= d < |t.calls| && Holding(t.calls[d]) ensures !Lingers(t.linger, t.calls[d].phase.session) {
        assert d != c && t.calls[d] == s.calls[d];
        assert !Lingers(s.linger, s.calls[d].phase.session);
      }
    }
  }

  lemma ExpireKeepsInv(s: State, i: nat)
    requires Inv(s)
    ensures Inv(Step(s, Expire(i)))
  {
    if i < |s.linger.callbacks| {
      var t := Step(s, Expire(i));
      var b := s.linger.callbacks[i];
      assert forall j :: 0 <= j < |t.linger.callbacks| ==>
               t.linger.callbacks[j] == s.linger.callbacks[if j < i then j else j + 1];
      forall c | 0 <= c < |t.calls| && Holding(t.calls[c])
        ensures !Lingers(t.linger, t.calls[c].phase.session) && ClaimHolds(t.calls[c], t.rows)
      {
        assert !Lingers(s.linger, s.calls[c].phase.session) && ClaimHolds(s.calls[c], s.rows);
        assert b.entry.session != s.calls[c].phase.session;
      }
    }
  }

  lemma ClaimKeepsInv(s: State, c: nat)
    requires Inv(s)
    ensures Inv(Step(s, Claim(c)))
  {
    if c < |s.calls| && s.calls[c].phase.Claiming? {
      var t := Step(s, Claim(c));
      forall d | 0 <= d < |t.calls| && Holding(t.calls[d])
        ensures !Lingers(t.linger, t.calls[d].phase.session) && ClaimHolds(t.calls[d], t.rows)
      {
        assert !Lingers(s.linger, s.calls[d].phase.session) && ClaimHolds(s.calls[d], s.rows);
        assert d != c ==> t.calls[d] == s.calls[d];
      }
    }
  }

  lemma CallKeepsInv(s: State, e: Event)
    requires Inv(s) && (e.Arrive? || e.Check? || e.SpawnOk? || e.SpawnFails?)
    ensures Inv(Step(s, e))
  {
    hide L.Step;
    var t := Step(s, e);
    forall c | 0 <= c < |t.calls| && Holding(t.calls[c])
      ensures t.calls[c].phase.session in t.used && !Lingers(t.linger, t.calls[c].phase.session)
      ensures ClaimHolds(t.calls[c], t.rows)
    {
      assert c < |s.calls| && Holding(s.calls[c]) ==>
               s.calls[c].phase.session in s.used && !Lingers(s.linger, s.calls[c].phase.session)
               && ClaimHolds(s.calls[c], s.rows);
    }
  }

  lemma StepKeepsInv(s: State, e: Event)
    requires Inv(s)
    ensures Inv(Step(s, e))
  {
    match e {
      case Timer(event) => TimerKeepsInv(s, event);
      case StartLinger(c, delay) => StartLingerKeepsInv(s, c, delay);
      case Expire(i) => ExpireKeepsInv(s, i);
      case Claim(c) => ClaimKeepsInv(s, c);
      case _ => CallKeepsInv(s, e);
    }
  }

  lemma {:induction false} RunKeepsInv(events: seq<Event>)
    ensures Inv(Run(events))
  {
    if events != [] {
      RunKeepsInv(events[..|events| - 1]);
      StepKeepsInv(Run(events[..|events| - 1]), events[|events| - 1]);
    }
  }

  /** Over every interleaving a spawned session wins its claim exactly when the pair has none, and a holder stays. */
  lemma ClaimSucceedsExactlyWhenFree(events: seq<Event>, c: nat)
    requires c < |Run(events).calls| && Run(events).calls[c].phase.Claiming?
    ensures var s := Run(events);
            var key, session := s.calls[c].key, s.calls[c].phase.session;
            var t := Step(s, Claim(c));
            && t.calls[c].phase == Lingering(session, key !in s.rows)
            && key in t.rows && t.rows[key] == (if key in s.rows then s.rows[key] else session)
  {
    RunKeepsInv(events);
    assert ClaimHolds(Run(events).calls[c], Run(events).rows);
  }

  /**
   * The linger timer is started whether or not the claim succeeded. Its entry
   * names the registered session exactly when the claim had succeeded.
   */
  lemma LingerNamesRegisteredExactly(events: seq<Event>, c: nat, delay: real)
    requires c < |Run(events).calls| && Run(events).calls[c].phase.Lingering?
    ensures var s := Run(events);
            var key := s.calls[c].key;
            var t := Step(s, StartLinger(c, delay));
            && key in t.linger.entries
            && (key in t.rows && t.rows[key] == t.linger.entries[key].session <==> s.calls[c].phase.claimed)
  {
    RunKeepsInv(events);
    var s := Run(events);
    assert ClaimHolds(s.calls[c], s.rows);
    StartEffect(s.linger, s.calls[c].key, s.calls[c].phase.session, s.calls[c].change, delay);
  }

  /** The expiry of another session's entry never removes a row. */
  lemma ExpiryReleasesOnlyItsOwn(s: State, i: nat, key: Key)
    requires key in s.rows
    ensures key !in Step(s, Expire(i)).rows ==>
              i < |s.linger.callbacks| && s.linger.callbacks[i].key == key
              && s.linger.callbacks[i].entry.session == s.rows[key]
    ensures key in Step(s, Expire(i)).rows ==> Step(s, Expire(i)).rows[key] == s.rows[key]
  {
  }

  // ----- serialised calls -------------------------------------------------------

  predicate Busy(c: Call)
  {
    c.phase.Calling? || Holding(c)
  }

  predicate OwnedByCallback(s: State, k: Key, session: string)
  {
    exists i :: 0 <= i < |s.linger.callbacks| && s.linger.callbacks[i].key == k
                && s.linger.callbacks[i].entry.session == session
  }

  predicate OwnedByCall(s: State, k: Key, session: string)
  {
    exists c :: 0 <= c < |s.calls| && s.calls[c].key == k && s.calls[c].phase == Lingering(session, true)
  }

  /** Some timer, pending expiry or call in progress will release the row. */
  predicate Owned(s: State, k: Key)
    requires k in s.rows
  {
    k in s.linger.entries || OwnedByCallback(s, k, s.rows[k]) || OwnedByCall(s, k, s.rows[k])
  }

  predicate CallOk(c: Call, rows: map<Key, string>)
  {
    && (c.phase.Calling? || c.phase.Claiming? ==> c.key !in rows)
    && (c.phase.Lingering? ==> c.phase.claimed)
    && (c.phase.Finished? && c.phase.outcome.Spawned? ==> c.phase.outcome.claimed)
  }

  ghost predicate SerialInv(s: State)
  {
    && (forall c, d :: 0 <= c < d < |s.calls| && Busy(s.calls[c]) && Busy(s.calls[d]) ==>
          s.calls[c].key != s.calls[d].key)
    && (forall c :: 0 <= c < |s.calls| ==> CallOk(s.calls[c], s.rows))
    && (forall k :: k in s.linger.entries ==> k in s.rows && s.rows[k] == s.linger.entries[k].session)
    && (forall k :: k in s.rows ==> Owned(s, k))
  }

  /** The event does not let a second call for a pair past the check. */
  predicate Serial(s: State, e: Event)
  {
    e.Check? && e.call < |s.calls| ==>
      forall d :: 0 <= d < |s.calls| && Busy(s.calls[d]) ==> s.calls[d].key != s.calls[e.call].key
  }

  lemma TimerKeepsSerial(s: State, e: L.Event)
    requires Inv(s) && SerialInv(s)
    ensures SerialInv(Step(s, Timer(e)))
  {
    if e.RunOut? || e.Fire? || e.Tick? {
      var moved, key := TimerEffect(s.linger, e);
      var t := Step(s, Timer(e));
      forall k | k in t.rows ensures Owned(t, k) {
        assert Owned(s, k);
        if moved && k == key {
          assert t.linger.callbacks[|s.linger.callbacks|] == L.Callback(key, s.linger.entries[key]);
          assert OwnedByCallback(t, k, t.rows[k]);
        } else if OwnedByCallback(s, k, s.rows[k]) {
          var i :| 0 <= i < |s.linger.callbacks| && s.linger.callbacks[i].key == k
                   && s.linger.callbacks[i].entry.session == s.rows[k];
          assert t.linger.callbacks[i] == s.linger.callbacks[i];
        }
      }
    }
  }

  lemma StartLingerKeepsSerial(s: State, c: nat, delay: real)
    requires Inv(s) && SerialInv(s)
    ensures SerialInv(Step(s, StartLinger(c, delay)))
  {
    if c < |s.calls| && s.calls[c].phase.Lingering? {
      var p := s.calls[c].phase;
      StartEffect(s.linger, s.calls[c].key, p.session, s.calls[c].change, delay);
      var t := Step(s, StartLinger(c, delay));
      assert ClaimHolds(s.calls[c], s.rows) && CallOk(s.calls[c], s.rows);
      forall k | k in t.rows ensures Owned(t, k) {
        assert Owned(s, k);
        if k != s.calls[c].key && OwnedByCall(s, k, s.rows[k]) {
          var d :| 0 <= d < |s.calls| && s.calls[d].key == k && s.calls[d].phase == Lingering(s.rows[k], true);
          assert t.calls[d] == s.calls[d];
        }
      }
    }
  }

  lemma ExpireKeepsSerial(s: State, i: nat)
    requires Inv(s) && SerialInv(s)
    ensures SerialInv(Step(s, Expire(i)))
  {
    if i < |s.linger.callbacks| {
      var t := Step(s, Expire(i));
      forall k | k in t.rows ensures Owned(t, k) {
        assert Owned(s, k) && t.rows[k] == s.rows[k];
        if OwnedByCallback(s, k, s.rows[k]) {
          var j :| 0 <= j < |s.linger.callbacks| && s.linger.callbacks[j].key == k
                   && s.linger.callbacks[j].entry.session == s.rows[k];
          assert j != i;
          assert t.linger.callbacks[if j < i then j else j - 1] == s.linger.callbacks[j];
        }
      }
    }
  }

  lemma ClaimKeepsSerial(s: State, c: nat)
    requires Inv(s) && SerialInv(s)
    ensures SerialInv(Step(s, Claim(c)))
  {
    if c < |s.calls| && s.calls[c].phase.Claiming? {
      var t := Step(s, Claim(c));
      assert CallOk(s.calls[c], s.rows);
      forall d | 0 <= d < |t.calls| ensures CallOk(t.calls[d], t.rows) {
        assert CallOk(s.calls[d], s.rows);
        assert d != c && Busy(s.calls[d]) ==> s.calls[d].key != s.calls[c].key;
      }
      forall k | k in t.rows ensures Owned(t, k) {
        if k == s.calls[c].key {
          assert t.calls[c].phase == Lingering(t.rows[k], true);
          assert OwnedByCall(t, k, t.rows[k]);
        } else {
          assert Owned(s, k);
          if OwnedByCall(s, k, s.rows[k]) {
            var d :| 0 <= d < |s.calls| && s.calls[d].key == k && s.calls[d].phase == Lingering(s.rows[k], true);
            assert t.calls[d] == s.calls[d];
          }
        }
      }
    }
  }

  lemma CallKeepsSerial(s: State, e: Event)
    requires Inv(s) && SerialInv(s) && Serial(s, e) && (e.Arrive? || e.Check? || e.SpawnOk? || e.SpawnFails?)
    ensures SerialInv(Step(s, e))
  {
    hide Inv, L.Step, Released;
    var t := Step(s, e);
    forall c | 0 <= c < |t.calls| ensures CallOk(t.calls[c], t.rows) {
      assert c < |s.calls| ==> CallOk(s.calls[c], s.rows);
    }
    forall k | k in t.rows ensures Owned(t, k) {
      assert Owned(s, k);
      if OwnedByCall(s, k, s.rows[k]) {
        var d :| 0 <= d < |s.calls| && s.calls[d].key == k && s.calls[d].phase == Lingering(s.rows[k], true);
        assert t.calls[d] == s.calls[d];
      }
    }
  }

  ghost predicate Serialised(events: seq<Event>)
  {
    forall n :: 0 <= n < |events| ==> Serial(Run(events[..n]), events[n])
  }

  lemma {:induction false} SerialRunKeepsInv(events: seq<Event>)
    requires Serialised(events)
    ensures SerialInv(Run(events))
  {
    if events != [] {
      var before := events[..|events| - 1];
      var e := events[|events| - 1];
      assert forall n :: 0 <= n < |before| ==> before[..n] == events[..n] && before[n] == events[n];
      SerialRunKeepsInv(before);
      RunKeepsInv(before);
      var s := Run(before);
      assert Serial(s, e);
      match e {
        case Timer(event) => TimerKeepsSerial(s, event);
        case StartLinger(c, delay) => StartLingerKeepsSerial(s, c, delay);
        case Expire(i) => ExpireKeepsSerial(s, i);
        case Claim(c) => ClaimKeepsSerial(s, c);
        case _ => CallKeepsSerial(s, e);
      }
    }
  }

  /**
   * With calls for a pair serialised, every spawned session is claimed, every
   * linger entry names the registered session, and every registered session has
   * a timer, a pending expiry or a call that will hand it to one.
   */
  lemma SerialisedCallsAreSound(events: seq<Event>, c: nat, k: Key)
    requires Serialised(events)
    ensures var s := Run(events);
            && (c < |s.calls| && s.calls[c].phase.Finished? && s.calls[c].phase.outcome.Spawned? ==>
                  s.calls[c].phase.outcome.claimed)
            && (k in s.linger.entries ==> k in s.rows && s.rows[k] == s.linger.entries[k].session)
            && (k in s.rows ==> Owned(s, k))
  {
    SerialRunKeepsInv(events);
    assert c < |Run(events).calls| ==> CallOk(Run(events).calls[c], Run(events).rows);
  }

  /** An assignment absorbed by a warm session does not renew its linger timer. */
  lemma WarmSessionIsNotRenewed(s: State, c: nat)
    requires c < |s.calls| && s.calls[c].phase.Checking? && s.calls[c].key in s.rows
    ensures var t := Step(s, Check(c));
            t.calls[c].phase == Finished(WarmSession) && t.linger == s.linger && t.rows == s.rows
  {
  }

  // ----- the mode decides ----------------------------------------------------------

  /** What an interactive call can have come to, and what a headless one can not. */
  predicate AsItsMode(c: Call)
  {
    if c.headless then c.phase != Finished(InteractiveReview)
    else c.phase in {Checking, Finished(WarmSession), Finished(InteractiveReview)}
  }

  lemma StepKeepsModes(s: State, e: Event, c: nat)
    requires c < |s.calls| && AsItsMode(s.calls[c])
    ensures c < |Step(s, e).calls| && AsItsMode(Step(s, e).calls[c])
    ensures Step(s, e).calls[c].headless == s.calls[c].headless
  {
  }

  /** Over every interleaving an interactive call never reaches the runner, the registry or a timer. */
  lemma {:induction false} InteractiveCallsNeverSpawn(events: seq<Event>, c: nat)
    requires c < |Run(events).calls|
    ensures AsItsMode(Run(events).calls[c])
  {
    if events != [] {
      var before, e := Run(events[..|events| - 1]), events[|events| - 1];
      if c < |before.calls| {
        InteractiveCallsNeverSpawn(events[..|events| - 1], c);
        StepKeepsModes(before, e, c);
      } else {
        NewCallsCheck(before, e, c);
      }
      hide Step, AsItsMode;
    }
  }

  lemma NewCallsCheck(s: State, e: Event, c: nat)
    requires |s.calls| <= c < |Step(s, e).calls|
    ensures Step(s, e).calls[c].phase == Checking
  {
  }

  /** The check sends each call its way and touches nothing else. */
  lemma CheckDecides(s: State, c: nat)
    requires c < |s.calls| && s.calls[c].phase == Checking
    ensures var t := Step(s, Check(c));
            && t.rows == s.rows && t.linger == s.linger && t.used == s.used && |t.calls| == |s.calls|
            && (forall i :: 0 <= i < |s.calls| && i != c ==> t.calls[i] == s.calls[i])
            && t.calls[c] == s.calls[c].(phase := t.calls[c].phase)
            && (t.calls[c].phase == Finished(WarmSession) <==> s.calls[c].key in s.rows)
            && (t.calls[c].phase == Finished(InteractiveReview) <==>
                  s.calls[c].key !in s.rows && !s.calls[c].headless)
            && (t.calls[c].phase == Calling <==> s.calls[c].key !in s.rows && s.calls[c].headless)
  {
  }

  /** A call whose spawn fails ends with that, and one whose spawn works goes on to claim its new session. */
  lemma SpawnEnds(s: State, c: nat, session: string)
    requires c < |s.calls| && s.calls[c].phase == Calling
    ensures Step(s, SpawnFails(c)) == s.(calls := s.calls[c := s.calls[c].(phase := Finished(SpawnFailed))])
    ensures session !in s.used ==>
              Step(s, SpawnOk(c, session))
              == s.(calls := s.calls[c := s.calls[c].(phase := Claiming(session))], used := s.used + {session})
  {
  }
}
