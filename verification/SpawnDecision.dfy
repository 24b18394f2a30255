/** `handle_bus_event` run by itself, from the warm-session check onward. */
module SpawnDecision {
  import opened Text
  import opened Times
  import R = SessionRegistry
  import L = Linger
  import S = Spawn

  /** `spawned` is the runner's answer: a session id, or none when it could not be reached. */
  method HandleBusEvent(registry: R.SqliteSessionRegistry, linger: L.SessionLingerManager,
                        agent: string, human: string, change: string, headless: bool,
                        spawned: Option<string>, now: Utc) returns (outcome: S.Outcome)
    requires linger.Valid()
    modifies registry, linger
    ensures linger.Valid()
    ensures var key := (agent, human);
            if key in old(registry.rows) then
              outcome == S.WarmSession && registry.rows == old(registry.rows) && linger.View() == old(linger.View())
            else if !headless then
              && outcome == S.InteractiveReview
              && registry.rows == old(registry.rows) && linger.View() == old(linger.View())
            else if spawned.None? then
              outcome == S.SpawnFailed && registry.rows == old(registry.rows) && linger.View() == old(linger.View())
            else
              && outcome == S.Spawned(spawned.value, true)
              && registry.rows == old(registry.rows)[key := R.Row(spawned.value, "headless", Iso(now), Iso(now))]
              && linger.View() == L.Step(old(linger.View()), L.Start(key, spawned.value, change, linger.Delay(agent)))
              && linger.View().entries[key].session == registry.rows[key].session
  {
    var warm := registry.IsSessioned(agent, human);
    if warm {
      return S.WarmSession;
    }
    if !headless {
      return S.InteractiveReview;
    }
    if spawned.None? {
      return S.SpawnFailed;
    }
    var claimed := registry.ClaimSession(agent, human, spawned.value, "headless", now);
    linger.Start(agent, human, spawned.value, change);
    S.StartEffect(old(linger.View()), (agent, human), spawned.value, change, linger.Delay(agent));
    return S.Spawned(spawned.value, claimed);
  }
}
