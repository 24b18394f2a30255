/**
 * Linger timers (`session_linger.py`). A timer that has run out waits for the
 * lock and then pops whatever entry its key has; cancelling it is too late by then.
 */
module Linger {
  import opened Text

  type Key = (string, string)

  datatype Entry = Entry(instance: nat, session: string, change: string, timer: nat, due: real)

  datatype Timer =
    | Armed(key: Key, due: real)
    | Firing(key: Key, due: real)   // ran out, blocked on the lock
    | Cancelled(key: Key)
    | Fired(key: Key)

  /** How a started entry came to its end. */
  datatype End = Expired(timer: nat, at: real) | ByCancel | Replaced

  /** An expired entry whose callback has not run yet. */
  datatype Callback = Callback(key: Key, entry: Entry)

  datatype State = State(
    entries: map<Key, Entry>, timers: seq<Timer>, clock: real,
    callbacks: seq<Callback>,     // popped, callback not yet run
    started: seq<Key>,            // key of every instance ever started
    ended: map<nat, End>)

  datatype Event =
    | Start(key: Key, session: string, change: string, delay: real)
    | Reset(key: Key, delay: real)
    | Cancel(key: Key)
    | RunOut(timer: nat)
    | Fire(timer: nat)
    | RunCallback(index: nat)
    | Tick(seconds: real)

  const INITIAL := State(map[], [], 0.0, [], [], map[])

  predicate Live(t: Timer)
  {
    t.Armed? || t.Firing?
  }

  /** `Timer.cancel`: no effect once the timer has run out. */
  function Cancel1(t: Timer): Timer
  {
    if t.Armed? then Cancelled(t.key) else t
  }

  function CancelExisting(s: State, key: Key): seq<Timer>
  {
    if key in s.entries && s.entries[key].timer < |s.timers|
    then s.timers[s.entries[key].timer := Cancel1(s.timers[s.entries[key].timer])]
    else s.timers
  }

  function DoStart(s: State, key: Key, session: string, change: string, delay: real): State
  {
    var timers := CancelExisting(s, key);
    s.(timers := timers + [Armed(key, s.clock + delay)],
       entries := s.entries[key := Entry(|s.started|, session, change, |timers|, s.clock + delay)],
       started := s.started + [key],
       ended := if key in s.entries then s.ended[s.entries[key].instance := Replaced] else s.ended)
  }

  function DoReset(s: State, key: Key, delay: real): State
  {
    if key !in s.entries then s
    else
      var timers := CancelExisting(s, key);
      s.(timers := timers + [Armed(key, s.clock + delay)],
         entries := s.entries[key := s.entries[key].(timer := |timers|, due := s.clock + delay)])
  }

  function DoCancel(s: State, key: Key): State
  {
    if key !in s.entries then s
    else s.(timers := CancelExisting(s, key), entries := s.entries - {key},
            ended := s.ended[s.entries[key].instance := ByCancel])
  }

  function DoFire(s: State, timer: nat): State
  {
    if timer >= |s.timers| || !s.timers[timer].Firing? then s
    else
      var key := s.timers[timer].key;
      var t := s.(timers := s.timers[timer := Fired(key)]);
      if key !in s.entries then t
      else t.(entries := s.entries - {key}, callbacks := s.callbacks + [Callback(key, s.entries[key])],
              ended := s.ended[s.entries[key].instance := Expired(timer, s.clock)])
  }

  function Step(s: State, e: Event): State
  {
    match e
    case Start(key, session, change, delay) => DoStart(s, key, session, change, delay)
    case Reset(key, delay) => DoReset(s, key, delay)
    case Cancel(key) => DoCancel(s, key)
    case RunOut(i) =>
      if i < |s.timers| && s.timers[i].Armed? && s.timers[i].due <= s.clock
      then s.(timers := s.timers[i := Firing(s.timers[i].key, s.timers[i].due)])
      else s
    case Fire(i) => DoFire(s, i)
    case RunCallback(i) =>
      if i < |s.callbacks| then s.(callbacks := s.callbacks[..i] + s.callbacks[i + 1..]) else s
    case Tick(seconds) => if seconds >= 0.0 then s.(clock := s.clock + seconds) else s
  }

  function Run(events: seq<Event>): State
  {
    if events == [] then INITIAL else Step(Run(events[..|events| - 1]), events[|events| - 1])
  }

  // ----- conservation, no immortal entry ---------------------------------------

  predicate EntryInv(s: State, key: Key)
    requires key in s.entries
  {
    var e := s.entries[key];
    && e.timer < |s.timers| && Live(s.timers[e.timer]) && s.timers[e.timer].key == key
    && s.timers[e.timer].due == e.due
    && e.instance < |s.started| && s.started[e.instance] == key && e.instance !in s.ended
  }

  predicate Accounted(s: State, n: nat)
    requires n < |s.started|
  {
    n in s.ended || (s.started[n] in s.entries && s.entries[s.started[n]].instance == n)
  }

  ghost predicate Inv(s: State)
  {
    && (forall key :: key in s.entries ==> EntryInv(s, key))
    && (forall n :: 0 <= n < |s.started| ==> Accounted(s, n))
    && (forall n :: n in s.ended ==> n < |s.started|)
    && (forall i :: 0 <= i < |s.timers| && s.timers[i].Firing? ==> s.timers[i].due <= s.clock)
  }

  lemma StartKeepsInv(s: State, key: Key, session: string, change: string, delay: real)
    requires Inv(s)
    ensures Inv(DoStart(s, key, session, change, delay))
  {
    var t := DoStart(s, key, session, change, delay);
    forall k | k in t.entries ensures EntryInv(t, k) {
      if k != key { assert EntryInv(s, k); }
      if key in s.entries { assert EntryInv(s, key); }
    }
    forall n | 0 <= n < |t.started| ensures Accounted(t, n) {
      if n < |s.started| { assert Accounted(s, n); }
    }
  }

  lemma ResetKeepsInv(s: State, key: Key, delay: real)
    requires Inv(s)
    ensures Inv(DoReset(s, key, delay))
  {
    var t := DoReset(s, key, delay);
    forall k | k in t.entries ensures EntryInv(t, k) {
      assert EntryInv(s, k);
      if key in s.entries { assert EntryInv(s, key); }
    }
    forall n | 0 <= n < |t.started| ensures Accounted(t, n) { assert Accounted(s, n); }
  }

  lemma CancelKeepsInv(s: State, key: Key)
    requires Inv(s)
    ensures Inv(DoCancel(s, key))
  {
    var t := DoCancel(s, key);
    forall k | k in t.entries ensures EntryInv(t, k) {
      assert EntryInv(s, k);
      if key in s.entries { assert EntryInv(s, key); }
    }
    forall n | 0 <= n < |t.started| ensures Accounted(t, n) { assert Accounted(s, n); }
  }

  lemma FireKeepsInv(s: State, timer: nat)
    requires Inv(s)
    ensures Inv(DoFire(s, timer))
  {
    var t := DoFire(s, timer);
    forall k | k in t.entries ensures EntryInv(t, k) { assert EntryInv(s, k); }
    forall n | 0 <= n < |t.started| ensures Accounted(t, n) {
      assert Accounted(s, n);
      if timer < |s.timers| && s.timers[timer].Firing? && s.timers[timer].key in s.entries {
        assert EntryInv(s, s.timers[timer].key);
      }
    }
  }

  lemma StepKeepsInv(s: State, e: Event)
    requires Inv(s)
    ensures Inv(Step(s, e))
  {
    match e {
      case Start(key, session, change, delay) => StartKeepsInv(s, key, session, change, delay);
      case Reset(key, delay) => ResetKeepsInv(s, key, delay);
      case Cancel(key) => CancelKeepsInv(s, key);
      case Fire(i) => FireKeepsInv(s, i);
      case _ =>
        var t := Step(s, e);
        forall k | k in t.entries ensures EntryInv(t, k) { assert EntryInv(s, k); }
        forall n | 0 <= n < |t.started| ensures Accounted(t, n) { assert Accounted(s, n); }
    }
  }

  lemma {:induction false} RunKeepsInv(events: seq<Event>)
    ensures Inv(Run(events))
  {
    if events != [] {
      RunKeepsInv(events[..|events| - 1]);
      StepKeepsInv(Run(events[..|events| - 1]), events[|events| - 1]);
    }
  }

  /** Each started entry is either still held or ended, never both. */
  lemma EachEntryEndsAtMostOnce(events: seq<Event>, n: nat)
    requires n < |Run(events).started|
    ensures var s := Run(events);
            n in s.ended <==> !(s.started[n] in s.entries && s.entries[s.started[n]].instance == n)
  {
    RunKeepsInv(events);
    var s := Run(events);
    assert Accounted(s, n);
    if s.started[n] in s.entries {
      assert EntryInv(s, s.started[n]);
    }
  }

  /** The way an entry ended is never revised. */
  lemma AnEndIsFinal(s: State, e: Event, n: nat)
    requires Inv(s) && n in s.ended
    ensures n in Step(s, e).ended && Step(s, e).ended[n] == s.ended[n]
  {
    forall k | k in s.entries ensures s.entries[k].instance != n { assert EntryInv(s, k); }
  }

  /** No immortal entry: the timer an entry holds is live, and once its time is over it expires the entry. */
  lemma NoImmortalEntry(events: seq<Event>, key: Key, wait: real)
    requires key in Run(events).entries && Run(events).entries[key].due <= Run(events).clock + wait && wait >= 0.0
    ensures var s := Run(events);
            var i := s.entries[key].timer;
            var t := Step(Step(Step(s, Tick(wait)), RunOut(i)), Fire(i));
            && key !in t.entries
            && t.callbacks == s.callbacks + [Callback(key, s.entries[key])]
            && s.entries[key].instance in t.ended && t.ended[s.entries[key].instance] == Expired(i, s.clock + wait)
  {
    RunKeepsInv(events);
    var s := Run(events);
    assert EntryInv(s, key);
    var i := s.entries[key].timer;
    var a := Step(s, Tick(wait));
    var b := Step(a, RunOut(i));
    assert b.timers[i].Firing? && b.timers[i].key == key && b.entries == s.entries;
  }

  // ----- cancel ---------------------------------------------------------------------

  function RunFrom(s: State, events: seq<Event>): State
  {
    if events == [] then s else Step(RunFrom(s, events[..|events| - 1]), events[|events| - 1])
  }

  predicate Starts(e: Event, key: Key)
  {
    e.Start? && e.key == key
  }

  /** After a cancel and until the next start, the only callbacks for the key are those already popped. */
  lemma {:induction false} CancelSilences(s: State, key: Key, more: seq<Event>)
    requires forall i :: 0 <= i < |more| ==> !Starts(more[i], key)
    ensures var u := RunFrom(Step(s, Cancel(key)), more);
            key !in u.entries && forall c :: c in u.callbacks && c.key == key ==> c in s.callbacks
    decreases |more|
  {
    if more != [] {
      var shorter := more[..|more| - 1];
      CancelSilences(s, key, shorter);
      var t := RunFrom(Step(s, Cancel(key)), shorter);
      var e := more[|more| - 1];
      assert !Starts(e, key);
      assert forall c :: c in Step(t, e).callbacks && c.key == key ==> c in t.callbacks;
    }
  }

  /** A callback popped before the cancel still runs after it: cancelling is silent exactly when there is none. */
  lemma PoppedCallbackSurvivesCancel(s: State, key: Key, i: nat)
    requires i < |s.callbacks| && s.callbacks[i].key == key
    ensures var t := Step(s, Cancel(key));
            i < |t.callbacks| && t.callbacks[i] == s.callbacks[i]
            && |Step(t, RunCallback(i)).callbacks| == |t.callbacks| - 1
  {
  }

  /** A timer takes at most one entry: once it has fired, firing it again does nothing, whatever happened since. */
  lemma {:induction false} ATimerFiresOnce(s: State, i: nat, more: seq<Event>)
    requires i < |s.timers| && s.timers[i].Firing?
    ensures var w := RunFrom(Step(s, Fire(i)), more);
            i < |w.timers| && w.timers[i] == Fired(s.timers[i].key) && Step(w, Fire(i)) == w
    decreases |more|
  {
    if more != [] {
      ATimerFiresOnce(s, i, more[..|more| - 1]);
      FiredStaysFired(RunFrom(Step(s, Fire(i)), more[..|more| - 1]), more[|more| - 1], i);
    }
  }

  lemma FiredStaysFired(s: State, e: Event, i: nat)
    requires i < |s.timers| && s.timers[i].Fired?
    ensures i < |Step(s, e).timers| && Step(s, e).timers[i] == s.timers[i]
  {
  }

  // ----- expiry is not early ----------------------------------------------------------

  /** An entry's due time is its last start or reset plus the delay. */
  lemma DueIsLastRenewalPlusDelay(s: State, e: Event, key: Key)
    requires key in Step(s, e).entries
    ensures if Starts(e, key) || (e.Reset? && e.key == key)
            then Step(s, e).entries[key].due == s.clock + e.delay
            else key in s.entries && Step(s, e).entries[key] == s.entries[key]
  {
  }

  predicate FiringFor(s: State, key: Key, i: int)
  {
    0 <= i < |s.timers| && s.timers[i].Firing? && s.timers[i].key == key
  }

  /** The only live timer of a held key is the entry's own; a key not held has none armed. */
  ghost predicate OnTime(s: State, key: Key)
  {
    forall i :: 0 <= i < |s.timers| && s.timers[i].key == key ==>
      if key in s.entries then Live(s.timers[i]) ==> s.entries[key].timer == i
      else !s.timers[i].Armed?
  }

  /** In step with its timer, an entry expires by its own timer and at or after its due time. */
  lemma OnTimeExpiryIsNotEarly(s: State, key: Key, i: nat)
    requires Inv(s) && OnTime(s, key) && key in s.entries && FiringFor(s, key, i)
    ensures s.entries[key].timer == i && s.entries[key].due <= s.clock
  {
    assert EntryInv(s, key);
  }

  /** Starting or renewing keeps a key in step with its timer exactly when no timer of the key has run out. */
  lemma RenewalIsSafeExactly(s: State, key: Key, session: string, change: string, delay: real, reset: bool)
    requires Inv(s) && OnTime(s, key) && (reset ==> key in s.entries)
    ensures OnTime(Step(s, if reset then Reset(key, delay) else Start(key, session, change, delay)), key)
            <==> !exists i :: FiringFor(s, key, i)
  {
    var t := Step(s, if reset then Reset(key, delay) else Start(key, session, change, delay));
    if key in s.entries {
      assert EntryInv(s, key);
    }
    assert t.entries[key].timer == |s.timers| && |t.timers| == |s.timers| + 1;
    if i :| FiringFor(s, key, i) {
      assert t.timers[i] == s.timers[i];
      assert Live(t.timers[i]) && t.timers[i].key == key;
    } else {
      forall i | 0 <= i < |t.timers| && t.timers[i].key == key && Live(t.timers[i]) ensures i == |s.timers| {
        assert i < |s.timers| ==> FiringFor(s, key, i) || i == |s.timers|;
      }
    }
  }

  function Renewal(key: Key, session: string, change: string, delay: real, reset: bool): Event
  {
    if reset then Reset(key, delay) else Start(key, session, change, delay)
  }

  /** A timer that ran out before the renewal expires the renewed entry at once, before its due time. */
  lemma LateTimerTakesTheRenewedEntry(s: State, key: Key, i: nat, session: string, change: string, delay: real,
      reset: bool)
    requires FiringFor(s, key, i) && delay > 0.0 && (reset ==> key in s.entries)
    ensures var t := Step(s, Renewal(key, session, change, delay, reset));
            var u := Step(t, Fire(i));
            && key in t.entries && t.entries[key].due > t.clock
            && key !in u.entries && u.callbacks == s.callbacks + [Callback(key, t.entries[key])]
  {
  }

  /** An entry whose timer runs out while a renewal holds the lock. */
  function LateTimer(key: Key, session: string, change: string, first: real, delay: real, reset: bool): seq<Event>
  {
    [Start(key, session, change, first)] + [Tick(first)] + [RunOut(0)] + [Renewal(key, session, change, delay, reset)]
  }

  lemma RunSnoc(events: seq<Event>, e: Event)
    ensures Run(events + [e]) == Step(Run(events), e)
  {
    assert (events + [e])[..|events|] == events;
  }

  /** For every key and all delays there is a run in which the entry just renewed expires before its due time. */
  lemma RenewedEntryCanExpireAtOnce(key: Key, session: string, change: string, first: real, delay: real, reset: bool)
    requires first >= 0.0 && delay > 0.0
    ensures var events := LateTimer(key, session, change, first, delay, reset);
            var t, u := Run(events), Run(events + [Fire(0)]);
            && key in t.entries && t.entries[key].due == t.clock + delay
            && u.clock == t.clock && key !in u.entries && u.callbacks == [Callback(key, t.entries[key])]
  {
    var start, renew := Start(key, session, change, first), Renewal(key, session, change, delay, reset);
    assert [] + [start] == [start] && Run([]) == INITIAL;
    RunSnoc([], start);
    RunSnoc([start], Tick(first));
    RunSnoc([start] + [Tick(first)], RunOut(0));
    RunSnoc([start] + [Tick(first)] + [RunOut(0)], renew);
    RunSnoc(LateTimer(key, session, change, first, delay, reset), Fire(0));
    var s := Run([start] + [Tick(first)] + [RunOut(0)]);
    assert FiringFor(s, key, 0) && key in s.entries && s.callbacks == [];
    LateTimerTakesTheRenewedEntry(s, key, 0, session, change, delay, reset);
  }

  lemma OtherKeysStayOnTime(s: State, e: Event, key: Key)
    requires Inv(s) && OnTime(s, key) && (e.Start? || e.Reset?) && e.key != key
    ensures OnTime(Step(s, e), key)
  {
    if key in s.entries {
      assert EntryInv(s, key);
    }
    if e.key in s.entries {
      assert EntryInv(s, e.key);
    }
  }

  lemma CancelStaysOnTime(s: State, other: Key, key: Key)
    requires Inv(s) && OnTime(s, key)
    ensures OnTime(DoCancel(s, other), key)
  {
    if other in s.entries {
      assert EntryInv(s, other);
    }
  }

  lemma FireStaysOnTime(s: State, i: nat, key: Key)
    requires OnTime(s, key)
    ensures OnTime(DoFire(s, i), key)
  {
  }

  lemma OtherStepsStayOnTime(s: State, e: Event, key: Key)
    requires Inv(s) && OnTime(s, key) && !Starts(e, key) && !(e.Reset? && e.key == key)
    ensures OnTime(Step(s, e), key)
  {
    match e {
      case Start(_, _, _, _) => OtherKeysStayOnTime(s, e, key);
      case Reset(_, _) => OtherKeysStayOnTime(s, e, key);
      case Cancel(other) => CancelStaysOnTime(s, other, key);
      case Fire(i) => FireStaysOnTime(s, i, key);
      case _ =>
    }
    hide DoStart, DoReset, DoCancel, DoFire, Inv;
  }

  /** No timer of the key had run out whenever the key was started or renewed. */
  ghost predicate RenewedInTime(events: seq<Event>, key: Key)
  {
    forall n :: 0 <= n < |events| && (Starts(events[n], key) || (events[n].Reset? && events[n].key == key)) ==>
      forall i :: !FiringFor(Run(events[..n]), key, i)
  }

  lemma {:induction false} RenewedInTimeStaysOnTime(events: seq<Event>, key: Key)
    requires RenewedInTime(events, key)
    ensures OnTime(Run(events), key)
  {
    if events != [] {
      var before := events[..|events| - 1];
      var e := events[|events| - 1];
      assert forall n :: 0 <= n < |before| ==> before[..n] == events[..n] && before[n] == events[n];
      RenewedInTimeStaysOnTime(before, key);
      RunKeepsInv(before);
      var s := Run(before);
      if e.Start? && e.key == key {
        RenewalIsSafeExactly(s, key, e.session, e.change, e.delay, false);
      } else if e.Reset? && e.key == key {
        if key in s.entries {
          RenewalIsSafeExactly(s, key, "", "", e.delay, true);
        }
      } else {
        OtherStepsStayOnTime(s, e, key);
      }
    }
  }

  /** Over such a run no entry of the key expires before its last start or reset plus the delay. */
  lemma ExpiryIsNeverEarly(events: seq<Event>, key: Key, i: nat)
    requires RenewedInTime(events, key) && key in Run(events).entries
    requires key !in Step(Run(events), Fire(i)).entries
    ensures Run(events).entries[key].due <= Run(events).clock
  {
    RenewedInTimeStaysOnTime(events, key);
    RunKeepsInv(events);
    OnTimeExpiryIsNotEarly(Run(events), key, i);
  }

  // ----- the manager -----------------------------------------------------------------------

  class SessionLingerManager {
    const defaultLinger: real
    const overrides: map<string, real>
    var entries: map<Key, Entry>
    var timers: seq<Timer>
    var clock: real
    ghost var callbacks: seq<Callback>
    ghost var started: seq<Key>
    ghost var ended: map<nat, End>
    var instances: nat

    ghost function View(): State
      reads this
    {
      State(entries, timers, clock, callbacks, started, ended)
    }

    ghost predicate Valid()
      reads this
    {
      instances == |started| && forall k :: k in entries ==> entries[k].timer < |timers|
    }

    constructor (lingerSeconds: real, overrides: map<string, real>)
      ensures Valid() && View() == INITIAL && defaultLinger == lingerSeconds && this.overrides == overrides
    {
      defaultLinger := lingerSeconds;
      this.overrides := overrides;
      entries, timers, clock, instances := map[], [], 0.0, 0;
      callbacks, started, ended := [], [], map[];
    }

    function Delay(agent: string): real
    {
      if agent in overrides then overrides[agent] else defaultLinger
    }

    /** `_cancel_existing` */
    method CancelTimerOf(key: Key)
      requires Valid()
      modifies this`timers
      ensures timers == CancelExisting(old(View()), key) && Valid()
    {
      if key in entries {
        var i := entries[key].timer;
        if timers[i].Armed? {
          timers := timers[i := Cancelled(timers[i].key)];
        }
      }
    }

    method Start(agent: string, human: string, session: string, change: string)
      requires Valid()
      modifies this
      ensures Valid() && View() == Step(old(View()), Event.Start((agent, human), session, change, Delay(agent)))
      ensures entries[(agent, human)].due == clock + if agent in overrides then overrides[agent] else defaultLinger
    {
      var key := (agent, human);
      ghost var next := Step(View(), Event.Start(key, session, change, Delay(agent)));
      CancelTimerOf(key);
      var due := clock + Delay(agent);
      entries := entries[key := Entry(instances, session, change, |timers|, due)];
      timers := timers + [Armed(key, due)];
      instances := instances + 1;
      started, ended := next.started, next.ended;
    }

    method Reset(agent: string, human: string) returns (found: bool)
      requires Valid()
      modifies this`timers, this`entries
      ensures Valid() && View() == Step(old(View()), Event.Reset((agent, human), Delay(agent)))
      ensures found <==> (agent, human) in old(entries)
      ensures found ==>
        entries[(agent, human)].due == clock + if agent in overrides then overrides[agent] else defaultLinger
    {
      var key := (agent, human);
      if key !in entries {
        return false;
      }
      CancelTimerOf(key);
      var due := clock + Delay(agent);
      entries := entries[key := entries[key].(timer := |timers|, due := due)];
      timers := timers + [Armed(key, due)];
      return true;
    }

    method Cancel(key: Key) returns (found: bool)
      requires Valid()
      modifies this`timers, this`entries, this`ended
      ensures Valid() && View() == Step(old(View()), Event.Cancel(key))
      ensures found <==> key in old(entries)
    {
      if key !in entries {
        return false;
      }
      ghost var next := Step(View(), Event.Cancel(key));
      CancelTimerOf(key);
      entries := entries - {key};
      ended := next.ended;
      return true;
    }

    /** `_fire`, up to the release of the lock; the entry to call back for, if any. */
    method Fire(i: nat) returns (entry: Option<Entry>)
      requires Valid() && i < |timers| && timers[i].Firing?
      modifies this`timers, this`entries, this`ended, this`callbacks
      ensures Valid() && View() == Step(old(View()), Event.Fire(i))
      ensures entry == if old(timers[i].key) in old(entries) then Some(old(entries)[old(timers[i].key)]) else None
    {
      ghost var next := Step(View(), Event.Fire(i));
      var key := timers[i].key;
      timers := timers[i := Fired(key)];
      if key in entries {
        entry := Some(entries[key]);
        entries := entries - {key};
      } else {
        entry := None;
      }
      ended, callbacks := next.ended, next.callbacks;
    }

    /** Cancels every entry present when it starts: their armed timers are stopped, all others stay as they are. */
    method Shutdown()
      requires Valid()
      modifies this`timers, this`entries, this`ended
      ensures Valid() && entries == map[] && callbacks == old(callbacks) && started == old(started)
      ensures Quieted(old(entries), old(timers), {}, timers)
      ensures Inv(old(View())) ==> Inv(View())
    {
      hide Quieted, Inv, Step;
      var keys := entries.Keys;
      NothingQuieted(entries, timers);
      while keys != {}
        invariant Valid() && keys == entries.Keys && callbacks == old(callbacks) && started == old(started)
        invariant forall k :: k in entries ==> k in old(entries) && entries[k] == old(entries)[k]
        invariant Quieted(old(entries), old(timers), keys, timers)
        invariant Inv(old(View())) ==> Inv(View())
        decreases keys
      {
        var key :| key in keys;
        ghost var before := View();
        var found := Cancel(key);
        CancelStopsTheTimer(before, key);
        OneMoreQuieted(old(entries), old(timers), keys, before.timers, key);
        if Inv(before) {
          StepKeepsInv(before, Event.Cancel(key));
        }
        keys := keys - {key};
      }
    }
  }

  /** The timers of the entries not in `left` are not armed, and no other timer differs from before. */
  ghost predicate Quieted(entries: map<Key, Entry>, before: seq<Timer>, left: set<Key>, timers: seq<Timer>)
  {
    && |timers| == |before|
    && (forall k :: k in entries && k !in left ==>
          entries[k].timer < |timers| && !timers[entries[k].timer].Armed?)
    && (forall i :: 0 <= i < |timers| ==>
          timers[i] == before[i] || (timers[i] == Cancel1(before[i]) && Owns(entries, i)))
  }

  /** The timer belongs to some entry. */
  predicate Owns(entries: map<Key, Entry>, timer: int)
  {
    exists k :: k in entries && entries[k].timer == timer
  }

  lemma NothingQuieted(entries: map<Key, Entry>, timers: seq<Timer>)
    ensures Quieted(entries, timers, entries.Keys, timers)
  {
  }

  lemma OneMoreQuieted(entries: map<Key, Entry>, before: seq<Timer>, left: set<Key>, timers: seq<Timer>, key: Key)
    requires Quieted(entries, before, left, timers) && key in entries && entries[key].timer < |timers|
    ensures var i := entries[key].timer;
            Quieted(entries, before, left - {key}, timers[i := Cancel1(timers[i])])
  {
    assert Owns(entries, entries[key].timer);
  }

  lemma CancelStopsTheTimer(s: State, key: Key)
    requires key in s.entries && s.entries[key].timer < |s.timers|
    ensures var t := Step(s, Event.Cancel(key));
            var i := s.entries[key].timer;
            && t.timers == s.timers[i := Cancel1(s.timers[i])] && t.entries == s.entries - {key}
            && t.callbacks == s.callbacks && t.started == s.started
  {
  }
}
