/** When a registered session is left with nothing that would release it. */
module SpawnRaces {
  import opened Spawn

  /** A timer, a pending expiry or a call in progress that will release the row's own session. */
  predicate Releasable(s: State, k: Key)
    requires k in s.rows
  {
    || (k in s.linger.entries && s.linger.entries[k].session == s.rows[k])
    || OwnedByCallback(s, k, s.rows[k])
    || OwnedByCall(s, k, s.rows[k])
  }

  /** The linger start of a refused call, where the row has no pending expiry and no call of its own. */
  predicate Strands(s: State, e: Event, k: Key)
    requires k in s.rows
  {
    && e.StartLinger? && e.call < |s.calls| && s.calls[e.call].phase.Lingering? && s.calls[e.call].key == k
    && s.calls[e.call].phase.session != s.rows[k]
    && !OwnedByCallback(s, k, s.rows[k]) && !OwnedByCall(s, k, s.rows[k])
  }

  lemma CallStays(s: State, t: State, k: Key, session: string, c: int)
    requires OwnedByCall(s, k, session) && |s.calls| <= |t.calls|
    requires forall d :: 0 <= d < |s.calls| && d != c ==> t.calls[d] == s.calls[d]
    requires 0 <= c < |s.calls| ==> s.calls[c].phase != Lingering(session, true) || s.calls[c].key != k
    ensures OwnedByCall(t, k, session)
  {
    var d :| 0 <= d < |s.calls| && s.calls[d].key == k && s.calls[d].phase == Lingering(session, true);
    assert t.calls[d] == s.calls[d];
  }

  lemma TimerKeepsReleaser(s: State, e: L.Event, k: Key)
    requires k in s.rows && Releasable(s, k)
    ensures var t := Step(s, Timer(e)); k in t.rows && t.rows[k] == s.rows[k] && Releasable(t, k)
  {
    var t := Step(s, Timer(e));
    if e.RunOut? || e.Fire? || e.Tick? {
      var moved, key := TimerEffect(s.linger, e);
      hide L.Step;
      assert t.calls == s.calls;
      if OwnedByCallback(s, k, s.rows[k]) {
        var i :| 0 <= i < |s.linger.callbacks| && s.linger.callbacks[i].key == k
                 && s.linger.callbacks[i].entry.session == s.rows[k];
        assert t.linger.callbacks[i] == s.linger.callbacks[i];
      } else if moved && key == k {
        assert t.linger.callbacks[|s.linger.callbacks|] == L.Callback(key, s.linger.entries[key]);
      }
    }
  }

  lemma ExpiryKeepsReleaser(s: State, i: nat, k: Key)
    requires k in s.rows && Releasable(s, k) && k in Step(s, Expire(i)).rows
    ensures var t := Step(s, Expire(i)); t.rows[k] == s.rows[k] && Releasable(t, k)
  {
    if i < |s.linger.callbacks| {
      var t := Step(s, Expire(i));
      assert t.calls == s.calls && t.linger.entries == s.linger.entries;
      if OwnedByCallback(s, k, s.rows[k]) {
        var j :| 0 <= j < |s.linger.callbacks| && s.linger.callbacks[j].key == k
                 && s.linger.callbacks[j].entry.session == s.rows[k];
        assert t.linger.callbacks[if j < i then j else j - 1] == s.linger.callbacks[j];
      }
    }
  }

  lemma LingerStartStrandsExactly(s: State, c: nat, delay: real, k: Key)
    requires Inv(s) && k in s.rows && Releasable(s, k)
    ensures var t := Step(s, StartLinger(c, delay));
            && k in t.rows && t.rows[k] == s.rows[k]
            && (Releasable(t, k) <==> !Strands(s, StartLinger(c, delay), k))
  {
    if c < |s.calls| && s.calls[c].phase.Lingering? {
      var p := s.calls[c].phase;
      var t := Step(s, StartLinger(c, delay));
      StartEffect(s.linger, s.calls[c].key, p.session, s.calls[c].change, delay);
      hide L.Step;
      assert ClaimHolds(s.calls[c], s.rows);
      if OwnedByCallback(s, k, s.rows[k]) {
        assert OwnedByCallback(t, k, t.rows[k]);
      }
      if OwnedByCall(s, k, s.rows[k]) && !(s.calls[c].key == k && p.session == s.rows[k]) {
        CallStays(s, t, k, s.rows[k], c);
      }
      if OwnedByCallback(t, k, t.rows[k]) {
        assert OwnedByCallback(s, k, s.rows[k]);
      }
      if OwnedByCall(t, k, t.rows[k]) {
        assert OwnedByCall(s, k, s.rows[k]) by { CallStays(t, s, k, s.rows[k], c); }
      }
    }
  }

  lemma ClaimKeepsReleaser(s: State, c: nat, k: Key)
    requires Inv(s) && k in s.rows && Releasable(s, k)
    ensures var t := Step(s, Claim(c)); k in t.rows && t.rows[k] == s.rows[k] && Releasable(t, k)
  {
    var t := Step(s, Claim(c));
    assert t.linger == s.linger;
    if OwnedByCall(s, k, s.rows[k]) {
      CallStays(s, t, k, s.rows[k], if c < |s.calls| && s.calls[c].phase.Claiming? then c else -1);
    }
  }

  lemma CallKeepsReleaser(s: State, e: Event, k: Key)
    requires k in s.rows && Releasable(s, k) && (e.Arrive? || e.Check? || e.SpawnOk? || e.SpawnFails?)
    ensures var t := Step(s, e); k in t.rows && t.rows[k] == s.rows[k] && Releasable(t, k)
  {
    var t := Step(s, e);
    if OwnedByCall(s, k, s.rows[k]) {
      var c := if e.Arrive? || e.call >= |s.calls| || s.calls[e.call].phase.Lingering? then -1 else e.call;
      CallStays(s, t, k, s.rows[k], c);
    }
  }

  /**
   * Over every interleaving, a row that would be released and stays keeps
   * something that will release it, except exactly when a refused call starts
   * its linger timer over the row's own.
   */
  lemma RowLosesItsReleaserExactly(events: seq<Event>, e: Event, k: Key)
    requires k in Run(events).rows && Releasable(Run(events), k) && k in Step(Run(events), e).rows
    ensures Releasable(Step(Run(events), e), k) <==> !Strands(Run(events), e, k)
  {
    RunKeepsInv(events);
    var s := Run(events);
    hide Run, Inv, Releasable;
    match e {
      case Timer(event) => TimerKeepsReleaser(s, event, k);
      case Expire(i) => ExpiryKeepsReleaser(s, i, k);
      case StartLinger(c, delay) => LingerStartStrandsExactly(s, c, delay, k);
      case Claim(c) => ClaimKeepsReleaser(s, c, k);
      case _ => CallKeepsReleaser(s, e, k);
    }
  }

  // ----- once stranded -----------------------------------------------------------------

  lemma StrandedCallsStay(s: State, e: Event, k: Key)
    requires Inv(s) && k in s.rows && !Releasable(s, k) && !e.Timer? && !e.Expire?
    ensures var t := Step(s, e); k in t.rows && t.rows[k] == s.rows[k] && !Releasable(t, k)
  {
    var t := Step(s, e);
    if e.StartLinger? && e.call < |s.calls| && s.calls[e.call].phase.Lingering? {
      var c := s.calls[e.call];
      assert ClaimHolds(c, s.rows);
      assert c.phase == Lingering(c.phase.session, c.phase.claimed);
      StartEffect(s.linger, c.key, c.phase.session, c.change, e.delay);
    }
    if e.Claim? && e.call < |s.calls| {
      assert s.calls[e.call].phase.Claiming? ==> ClaimHolds(s.calls[e.call], s.rows);
    }
    hide L.Step;
    assert t.linger.callbacks == s.linger.callbacks;
    assert forall d :: 0 <= d < |s.calls| ==> t.calls[d].key == s.calls[d].key;
  }

  lemma StrandedTimersStay(s: State, e: L.Event, k: Key)
    requires k in s.rows && !Releasable(s, k)
    ensures var t := Step(s, Timer(e)); k in t.rows && t.rows[k] == s.rows[k] && !Releasable(t, k)
  {
    if e.RunOut? || e.Fire? || e.Tick? {
      var t := Step(s, Timer(e));
      var moved, key := TimerEffect(s.linger, e);
      hide L.Step;
      assert forall i :: 0 <= i < |s.linger.callbacks| ==> t.linger.callbacks[i] == s.linger.callbacks[i];
    }
  }

  lemma StrandedExpiriesStay(s: State, i: nat, k: Key)
    requires k in s.rows && !Releasable(s, k)
    ensures var t := Step(s, Expire(i)); k in t.rows && t.rows[k] == s.rows[k] && !Releasable(t, k)
  {
    if i < |s.linger.callbacks| {
      var t := Step(s, Expire(i));
      assert forall j :: 0 <= j < |t.linger.callbacks| ==>
               t.linger.callbacks[j] == s.linger.callbacks[if j < i then j else j + 1];
    }
  }

  /** A row without a releaser is never released, whatever follows: the pair counts as warm for good. */
  lemma {:induction false} StrandedForever(events: seq<Event>, more: seq<Event>, k: Key)
    requires k in Run(events).rows && !Releasable(Run(events), k)
    ensures k in Run(events + more).rows && Run(events + more).rows[k] == Run(events).rows[k]
    ensures !Releasable(Run(events + more), k)
    decreases |more|
  {
    if more == [] {
      assert events + more == events;
    } else {
      var shorter, e := more[..|more| - 1], more[|more| - 1];
      StrandedForever(events, shorter, k);
      RunKeepsInv(events + shorter);
      RunSnoc(events + shorter, e);
      assert events + more == events + shorter + [e];
      var s := Run(events + shorter);
      hide Run, Inv, Releasable, Step;
      match e {
        case Timer(event) => StrandedTimersStay(s, event, k);
        case Expire(i) => StrandedExpiriesStay(s, i, k);
        case _ => StrandedCallsStay(s, e, k);
      }
    }
  }

  lemma RunSnoc(events: seq<Event>, e: Event)
    ensures Run(events + [e]) == Step(Run(events), e)
  {
    assert (events + [e])[..|events|] == events;
  }

  // ----- a race ----------------------------------------------------------------------------

  /** Two assignments for one pair that both pass the check before either claims. */
  function Race(k: Key, a: string, b: string, delay: real): seq<Event>
  {
    [Arrive(k, "", true)] + [Arrive(k, "", true)] + [Check(0)] + [Check(1)] + [SpawnOk(0, a)] + [SpawnOk(1, b)]
    + [Claim(0)] + [Claim(1)] + [StartLinger(0, delay)] + [StartLinger(1, delay)]
  }

  lemma BothSpawn(k: Key, a: string, b: string)
    requires a != b
    ensures Run([Arrive(k, "", true)] + [Arrive(k, "", true)] + [Check(0)] + [Check(1)]
                + [SpawnOk(0, a)] + [SpawnOk(1, b)])
            == State(map[], L.INITIAL, [Call(k, "", true, Claiming(a)), Call(k, "", true, Claiming(b))], {a, b})
  {
    var e := Arrive(k, "", true);
    assert [] + [e] == [e];
    RunSnoc([], e);
    RunSnoc([e], e);
    RunSnoc([e] + [e], Check(0));
    RunSnoc([e] + [e] + [Check(0)], Check(1));
    RunSnoc([e] + [e] + [Check(0)] + [Check(1)], SpawnOk(0, a));
    RunSnoc([e] + [e] + [Check(0)] + [Check(1)] + [SpawnOk(0, a)], SpawnOk(1, b));
    assert Run([]) == INITIAL;
    assert Run([e] + [e]) == State(map[], L.INITIAL, [Call(k, "", true, Checking), Call(k, "", true, Checking)], {});
    assert Run([e] + [e] + [Check(0)] + [Check(1)])
           == State(map[], L.INITIAL, [Call(k, "", true, Calling), Call(k, "", true, Calling)], {});
  }

  lemma ClaimsRace(s: State, k: Key, a: string, b: string)
    requires s == State(map[], L.INITIAL, [Call(k, "", true, Claiming(a)), Call(k, "", true, Claiming(b))], {a, b})
    requires a != b
    ensures Step(Step(s, Claim(0)), Claim(1))
            == State(map[k := a], L.INITIAL,
                     [Call(k, "", true, Lingering(a, true)), Call(k, "", true, Lingering(b, false))], {a, b})
  {
  }

  lemma LingersRace(s: State, k: Key, a: string, b: string, delay: real)
    requires s == State(map[k := a], L.INITIAL,
                        [Call(k, "", true, Lingering(a, true)), Call(k, "", true, Lingering(b, false))], {a, b})
    requires a != b
    ensures var t := Step(Step(s, StartLinger(0, delay)), StartLinger(1, delay));
            && t.rows == map[k := a] && k in t.linger.entries && t.linger.entries[k].session == b
            && t.linger.callbacks == [] && |t.calls| == 2
            && t.calls[0].phase == Finished(Spawned(a, true)) && t.calls[1].phase == Finished(Spawned(b, false))
  {
    StartEffect(s.linger, k, a, "", delay);
    var m := Step(s, StartLinger(0, delay));
    StartEffect(m.linger, k, b, "", delay);
    hide L.Step;
  }

  lemma RaceRuns(k: Key, a: string, b: string, delay: real)
    requires a != b
    ensures var s := Run(Race(k, a, b, delay));
            && s.rows == map[k := a] && k in s.linger.entries && s.linger.entries[k].session == b
            && s.linger.callbacks == [] && |s.calls| == 2
            && s.calls[0].phase == Finished(Spawned(a, true)) && s.calls[1].phase == Finished(Spawned(b, false))
  {
    var e := Arrive(k, "", true);
    var p := [e] + [e] + [Check(0)] + [Check(1)] + [SpawnOk(0, a)] + [SpawnOk(1, b)];
    BothSpawn(k, a, b);
    RunSnoc(p, Claim(0));
    RunSnoc(p + [Claim(0)], Claim(1));
    RunSnoc(p + [Claim(0)] + [Claim(1)], StartLinger(0, delay));
    RunSnoc(p + [Claim(0)] + [Claim(1)] + [StartLinger(0, delay)], StartLinger(1, delay));
    hide Run, Step;
    ClaimsRace(Run(p), k, a, b);
    LingersRace(Run(p + [Claim(0)] + [Claim(1)]), k, a, b, delay);
  }

  /**
   * In this run, for every pair and any two sessions, the second claim is
   * refused, the linger entry names its unregistered session, and the registered
   * one is never released by any continuation.
   */
  lemma RaceStrandsTheWinner(k: Key, a: string, b: string, delay: real, more: seq<Event>)
    requires a != b
    ensures var s := Run(Race(k, a, b, delay));
            && k in s.rows && s.rows[k] == a && k in s.linger.entries && s.linger.entries[k].session == b
            && |s.calls| == 2 && s.calls[1].phase == Finished(Spawned(b, false))
    ensures var u := Run(Race(k, a, b, delay) + more); k in u.rows && u.rows[k] == a
  {
    hide Run, Step, Race;
    RaceRuns(k, a, b, delay);
    assert !Releasable(Run(Race(k, a, b, delay)), k);
    StrandedForever(Race(k, a, b, delay), more, k);
  }
}
