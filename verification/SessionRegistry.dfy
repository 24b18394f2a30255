/** The session table keyed by (agent, human), with timestamps stored as strings (`session_registry.py`). */
module SessionRegistry {
  import opened Text
  import opened Times

  type Key = (string, string)

  datatype Row = Row(session: string, mode: string, claimedAt: string, heartbeatAt: string)

  type Table = map<Key, Row>

  datatype Op =
    | Claim(key: Key, session: string, mode: string, now: Utc)
    | Release(key: Key, session: string)
    | Heartbeat(key: Key, session: string, now: Utc)
    | Cleanup(cutoff: Utc)

  predicate Holds(t: Table, key: Key, session: string)
  {
    key in t && t[key].session == session
  }

  function Apply(t: Table, op: Op): Table
  {
    match op
    case Claim(key, session, mode, now) =>
      if key in t && t[key].session != session then t else t[key := Row(session, mode, Iso(now), Iso(now))]
    case Release(key, session) => if Holds(t, key, session) then t - {key} else t
    case Heartbeat(key, session, now) =>
      if Holds(t, key, session) then t[key := t[key].(heartbeatAt := Iso(now))] else t
    case Cleanup(cutoff) => map k | k in t && !Below(t[k].heartbeatAt, Iso(cutoff)) :: t[k]
  }

  /** When each row last beat, as an instant. */
  type Beats = map<Key, Utc>

  ghost predicate Stamped(t: Table, beats: Beats)
  {
    forall k :: k in t ==> k in beats && Valid(beats[k]) && t[k].heartbeatAt == Iso(beats[k])
  }

  function Beat(beats: Beats, t: Table, op: Op): Beats
  {
    match op
    case Claim(key, session, _, now) => if key in t && t[key].session != session then beats else beats[key := now]
    case Heartbeat(key, session, now) => if Holds(t, key, session) then beats[key := now] else beats
    case _ => beats
  }

  predicate ValidOp(op: Op)
  {
    match op
    case Claim(_, _, _, now) => Valid(now)
    case Heartbeat(_, _, now) => Valid(now)
    case Cleanup(cutoff) => Valid(cutoff)
    case Release(_, _) => true
  }

  /**
   * Cleaning up by comparing strings removes exactly the rows whose last beat is
   * older than the threshold and changes no other row.
   */
  lemma CleanupRemovesExactlyTheStale(t: Table, beats: Beats, now: Utc, threshold: int, cutoff: Utc, k: Key)
    requires Stamped(t, beats) && Valid(now) && Valid(cutoff) && Micros(cutoff) == Micros(now) - threshold
    requires k in t
    ensures k in Apply(t, Cleanup(cutoff)) <==> Micros(now) - Micros(beats[k]) <= threshold
    ensures k in Apply(t, Cleanup(cutoff)) ==> Apply(t, Cleanup(cutoff))[k] == t[k]
    ensures Apply(t, Cleanup(cutoff)).Keys <= t.Keys
  {
    IsoOrderIsTimeOrder(beats[k], cutoff);
  }

  lemma CleanupByAge(t: Table, beats: Beats, now: Utc, threshold: int, cutoff: Utc)
    requires Stamped(t, beats) && Valid(now) && Valid(cutoff) && Micros(cutoff) == Micros(now) - threshold
    ensures Apply(t, Cleanup(cutoff)) == map k | k in t && Micros(now) - Micros(beats[k]) <= threshold :: t[k]
  {
    forall k | k in t ensures k in Apply(t, Cleanup(cutoff)) <==> Micros(now) - Micros(beats[k]) <= threshold {
      CleanupRemovesExactlyTheStale(t, beats, now, threshold, cutoff, k);
    }
  }

  lemma SmallerTable(t: Table, u: Table)
    requires u.Keys <= t.Keys
    ensures |t| - |u| == |t.Keys - u.Keys|
  {
    assert t.Keys == u.Keys + (t.Keys - u.Keys);
  }

  lemma ApplyKeepsStamps(t: Table, beats: Beats, op: Op)
    requires Stamped(t, beats) && ValidOp(op)
    ensures Stamped(Apply(t, op), Beat(beats, t, op))
  {
  }

  /** Whether the operation ends the session's hold: its own release, or a clean-up after its last beat. */
  ghost predicate Ends(op: Op, key: Key, session: string, beat: Utc)
  {
    || op == Release(key, session)
    || (op.Cleanup? && beat.month <= 12 && op.cutoff.month <= 12 && Micros(beat) < Micros(op.cutoff))
  }

  /** A holder is displaced by nothing but its own release or its own silence; a rival claim changes nothing. */
  lemma HolderIsNotDisplaced(t: Table, beats: Beats, op: Op, key: Key, session: string)
    requires Stamped(t, beats) && ValidOp(op) && Holds(t, key, session)
    ensures Holds(Apply(t, op), key, session) <==> !Ends(op, key, session, beats[key])
    ensures op.Claim? && op.key == key && op.session != session ==> Apply(t, op) == t
  {
    if op.Cleanup? {
      IsoOrderIsTimeOrder(beats[key], op.cutoff);
    }
  }

  /** A claim, a heartbeat or a release concerns one row. */
  lemma OtherRowsStay(t: Table, op: Op, k: Key)
    requires !op.Cleanup? && op.key != k
    ensures k in Apply(t, op) <==> k in t
    ensures k in t ==> Apply(t, op)[k] == t[k]
  {
  }

  /** The row of a pair belongs to whoever claimed it first; only that session renews it or lets it go. */
  lemma OwnRow(t: Table, key: Key, session: string, mode: string, now: Utc)
    ensures var held := key in t && t[key].session == session;
            var u := Apply(t, Claim(key, session, mode, now));
            var v := Apply(t, Heartbeat(key, session, now));
            && (key in t && !held ==> u == t)
            && (key !in t || held ==>
                  key in u && u[key].session == session && u[key].mode == mode
                  && u[key].claimedAt == Iso(now) && u[key].heartbeatAt == Iso(now))
            && (if held then key in v && v[key] == t[key].(heartbeatAt := Iso(now)) else v == t)
            && (if held then key !in Apply(t, Release(key, session)) else Apply(t, Release(key, session)) == t)
  {
    hide Iso;
  }

  class SqliteSessionRegistry {
    var rows: Table

    constructor ()
      ensures rows == map[]
    {
      rows := map[];
    }

    method IsSessioned(agent: string, human: string) returns (r: bool)
      ensures r <==> (agent, human) in rows
    {
      r := (agent, human) in rows;
    }

    method ClaimSession(agent: string, human: string, session: string, mode: string, now: Utc) returns (claimed: bool)
      modifies this`rows
      ensures rows == Apply(old(rows), Claim((agent, human), session, mode, now))
      ensures claimed <==> Holds(rows, (agent, human), session)
    {
      var key := (agent, human);
      if key in rows {
        if rows[key].session != session {
          return false;
        }
      }
      var stamp := Iso(now);
      rows := rows[key := Row(session, mode, stamp, stamp)];
      return true;
    }

    method ReleaseSession(agent: string, human: string, session: string) returns (released: bool)
      modifies this`rows
      ensures rows == Apply(old(rows), Release((agent, human), session))
      ensures released <==> Holds(old(rows), (agent, human), session)
      ensures !Holds(rows, (agent, human), session)
    {
      released := (agent, human) in rows && rows[(agent, human)].session == session;
      if released {
        rows := rows - {(agent, human)};
      }
    }

    method Beat(agent: string, human: string, session: string, now: Utc) returns (found: bool)
      modifies this`rows
      ensures rows == Apply(old(rows), Heartbeat((agent, human), session, now))
      ensures found <==> Holds(old(rows), (agent, human), session)
    {
      var key := (agent, human);
      found := key in rows && rows[key].session == session;
      if found {
        rows := rows[key := rows[key].(heartbeatAt := Iso(now))];
      }
    }

    /** Deletes by string comparison; what is gone is what had not beaten for longer than the threshold. */
    method CleanupStale(now: Utc, threshold: int, cutoff: Utc, ghost beats: Beats) returns (removed: nat)
      requires Stamped(rows, beats) && Valid(now) && Valid(cutoff) && Micros(cutoff) == Micros(now) - threshold
      modifies this`rows
      ensures rows == map k | k in old(rows) && Micros(now) - Micros(beats[k]) <= threshold :: old(rows)[k]
      ensures removed == |old(rows)| - |rows|
    {
      var text := Iso(cutoff);
      var kept := map k | k in rows && !Below(rows[k].heartbeatAt, text) :: rows[k];
      CleanupByAge(rows, beats, now, threshold, cutoff);
      SmallerTable(rows, kept);
      removed := |rows| - |kept|;
      rows := kept;
    }
  }
}
