/**
 * Single-use refresh tokens (`ce_web_auth.py`): records in memory, their copy on
 * disk, saves that can fail and restarts that read the copy back. The hash that
 * keys the records is taken to be injective and minted tokens to be new.
 */
module RefreshTokens {
  type Token = string

  datatype Rec = Rec(username: string, exp: int)

  type Records = map<Token, Rec>

  datatype State = State(
    records: Records, disk: Records, clock: int,
    logins: seq<string>,            // username of each login
    root: map<Token, nat>,          // the login each minted token descends from
    exchanged: multiset<Token>)     // tokens exchanged for a session

  datatype Event =
    | Issue(username: string, minted: Token, saves: bool)
    | Refresh(token: Token, minted: Token, late: nat, saves: bool, sessionWorks: bool, revokeSaves: bool)
    | Revoke(username: string, saves: bool)
    | Reload(readable: bool)
    | Tick(seconds: nat)

  const TTL := 14 * 24 * 3600
  const INITIAL := State(map[], map[], 0, [], map[], multiset{})

  function Prune(records: Records, clock: int): Records
  {
    map t | t in records && records[t].exp > clock :: records[t]
  }

  function Without(records: Records, username: string): Records
  {
    map t | t in records && records[t].username != username :: records[t]
  }

  predicate HasTokenOf(records: Records, username: string)
  {
    exists t :: t in records && records[t].username == username
  }

  /** Memory becomes `records`; the file follows if the save works. */
  function Store(s: State, records: Records, saves: bool): State
  {
    s.(records := records, disk := if saves then records else s.disk)
  }

  function DoRevoke(s: State, username: string, saves: bool): State
  {
    if HasTokenOf(s.records, username) then Store(s, Without(s.records, username), saves) else s
  }

  /** The exchange in the store: on success the presented token is gone and the new one stands for it. */
  function Rotate(s: State, token: Token, minted: Token, saves: bool): State
    requires token in s.records && token in s.root
  {
    var user := s.records[token].username;
    Store(s, (s.records - {token})[minted := Rec(user, s.clock + TTL)], saves).(root := s.root[minted := s.root[token]])
  }

  /** `consume_and_rotate`, whichever way it ends. */
  function Attempt(s: State, token: Token, minted: Token, late: nat, saves: bool): State
  {
    var p := s.(records := Prune(s.records, s.clock), clock := s.clock + late);
    if token !in p.records || token !in p.root || minted in p.root then p
    else if p.records[token].exp <= p.clock then Store(p, p.records - {token}, saves)
    else Rotate(p, token, minted, saves)
  }

  /** It returns a new token: the old one is there, unexpired, and the save works. */
  predicate Succeeds(s: State, token: Token, minted: Token, late: nat, saves: bool)
  {
    token in s.records && token in s.root && minted !in s.root && s.records[token].exp > s.clock + late && saves
  }

  /** After a successful exchange: a session, or revocation of the user when none can be issued. */
  function Settle(r: State, token: Token, username: string, sessionWorks: bool, revokeSaves: bool): State
  {
    if sessionWorks then r.(exchanged := r.exchanged + multiset{token}) else DoRevoke(r, username, revokeSaves)
  }

  function DoRefresh(s: State, token: Token, minted: Token, late: nat, saves: bool, sessionWorks: bool,
      revokeSaves: bool): State
  {
    var r := Attempt(s, token, minted, late, saves);
    if Succeeds(s, token, minted, late, saves)
    then Settle(r, token, s.records[token].username, sessionWorks, revokeSaves) else r
  }

  function Step(s: State, e: Event): State
  {
    match e
    case Issue(username, minted, saves) =>
      if minted in s.root then s
      else
        Store(s, Prune(s.records, s.clock)[minted := Rec(username, s.clock + TTL)], saves).(
          logins := s.logins + [username], root := s.root[minted := |s.logins|])
    case Refresh(token, minted, late, saves, sessionWorks, revokeSaves) =>
      DoRefresh(s, token, minted, late, saves, sessionWorks, revokeSaves)
    case Revoke(username, saves) => DoRevoke(s, username, saves)
    case Reload(readable) => s.(records := if readable then Prune(s.disk, s.clock) else map[])
    case Tick(seconds) => s.(clock := s.clock + seconds)
  }

  function RunFrom(s: State, events: seq<Event>): State
  {
    if events == [] then s else Step(RunFrom(s, events[..|events| - 1]), events[|events| - 1])
  }

  function Run(events: seq<Event>): State
  {
    RunFrom(INITIAL, events)
  }

  // ----- single use, one username per chain -----------------------------------

  predicate RecordOk(t: Token, rec: Rec, logins: seq<string>, root: map<Token, nat>, exchanged: multiset<Token>)
  {
    t in root && root[t] < |logins| && rec.username == logins[root[t]] && t !in exchanged
  }

  ghost predicate RecordsOk(records: Records, s: State)
  {
    forall t :: t in records ==> RecordOk(t, records[t], s.logins, s.root, s.exchanged)
  }

  ghost predicate Inv(s: State)
  {
    && RecordsOk(s.records, s) && RecordsOk(s.disk, s)
    && (forall t :: t in s.exchanged ==> t in s.root)
    && (forall t :: s.exchanged[t] <= 1)
    && (forall t :: t in s.root ==> s.root[t] < |s.logins|)
  }

  lemma RevokeKeepsInv(s: State, username: string, saves: bool)
    requires Inv(s)
    ensures Inv(DoRevoke(s, username, saves))
  {
  }

  lemma RotateKeepsInv(s: State, token: Token, minted: Token, saves: bool)
    requires Inv(s) && token in s.records && token in s.root && minted !in s.root
    ensures Inv(Rotate(s, token, minted, saves))
    ensures saves ==> Inv(Rotate(s, token, minted, saves).(exchanged := s.exchanged + multiset{token}))
  {
    assert RecordOk(token, s.records[token], s.logins, s.root, s.exchanged);
  }

  lemma PruneKeepsInv(s: State, late: nat)
    requires Inv(s)
    ensures Inv(s.(records := Prune(s.records, s.clock), clock := s.clock + late))
  {
  }

  lemma DropKeepsInv(s: State, token: Token, saves: bool)
    requires Inv(s)
    ensures Inv(Store(s, s.records - {token}, saves))
  {
  }

  lemma AttemptKeepsInv(s: State, token: Token, minted: Token, late: nat, saves: bool)
    requires Inv(s)
    ensures Inv(Attempt(s, token, minted, late, saves))
    ensures Succeeds(s, token, minted, late, saves) ==>
              var r := Attempt(s, token, minted, late, saves); Inv(r.(exchanged := r.exchanged + multiset{token}))
  {
    hide Inv;
    var p := s.(records := Prune(s.records, s.clock), clock := s.clock + late);
    PruneKeepsInv(s, late);
    DropKeepsInv(p, token, saves);
    if token in p.records && token in p.root && minted !in p.root {
      RotateKeepsInv(p, token, minted, saves);
    }
  }

  lemma RefreshKeepsInv(s: State, token: Token, minted: Token, late: nat, saves: bool, sessionWorks: bool,
      revokeSaves: bool)
    requires Inv(s)
    ensures Inv(DoRefresh(s, token, minted, late, saves, sessionWorks, revokeSaves))
  {
    AttemptKeepsInv(s, token, minted, late, saves);
    if Succeeds(s, token, minted, late, saves) {
      RevokeKeepsInv(Attempt(s, token, minted, late, saves), s.records[token].username, revokeSaves);
    }
  }

  lemma IssueKeepsInv(s: State, username: string, minted: Token, saves: bool)
    requires Inv(s)
    ensures Inv(Step(s, Issue(username, minted, saves)))
  {
  }

  lemma StepKeepsInv(s: State, e: Event)
    requires Inv(s)
    ensures Inv(Step(s, e))
  {
    match e {
      case Issue(username, minted, saves) => IssueKeepsInv(s, username, minted, saves);
      case Refresh(token, minted, late, saves, sessionWorks, revokeSaves) =>
        RefreshKeepsInv(s, token, minted, late, saves, sessionWorks, revokeSaves);
      case Revoke(username, saves) => RevokeKeepsInv(s, username, saves);
      case _ =>
    }
  }

  lemma {:induction false} RunKeepsInv(events: seq<Event>)
    ensures Inv(Run(events))
  {
    if events != [] {
      RunKeepsInv(events[..|events| - 1]);
      StepKeepsInv(Run(events[..|events| - 1]), events[|events| - 1]);
    }
  }

  /** Over every sequence of issues, refreshes, revocations, failed saves, restarts: at most one exchange a token. */
  lemma TokensAreSingleUse(events: seq<Event>, t: Token)
    ensures var s := Run(events);
            && s.exchanged[t] <= 1
            && (t in s.exchanged ==> t !in s.records && t !in s.disk)
  {
    RunKeepsInv(events);
  }

  /** Every accepted token acts for the user whose login started its chain. */
  lemma ChainsKeepTheirUser(events: seq<Event>, t: Token)
    requires t in Run(events).records
    ensures var s := Run(events);
            t in s.root && s.root[t] < |s.logins| && s.records[t].username == s.logins[s.root[t]]
  {
    RunKeepsInv(events);
  }

  /** A refresh that succeeds consumes the token, and the new one belongs to the same login. */
  lemma RotationStaysInTheChain(events: seq<Event>, e: Event)
    requires e.Refresh? && Step(Run(events), e).exchanged == Run(events).exchanged + multiset{e.token}
    ensures var s := Run(events);
            var t := Step(s, e);
            && e.token in s.records && s.records[e.token].exp > s.clock
            && e.token !in t.records && e.token !in t.disk
            && e.minted in t.records && e.minted in t.disk && e.minted !in s.root
            && t.records[e.minted].username == s.records[e.token].username
            && t.root[e.minted] == s.root[e.token]
  {
    RunKeepsInv(events);
    var s := Run(events);
    assert (s.exchanged + multiset{e.token})[e.token] == s.exchanged[e.token] + 1;
  }

  // ----- revocation ---------------------------------------------------------------

  /** Tokens minted so far for the user. */
  predicate EarlierTokenOf(s: State, username: string, t: Token)
  {
    t in s.root && s.root[t] < |s.logins| && s.logins[s.root[t]] == username
  }

  /** A minted token that memory lacks and the file lacks or has expired. */
  predicate Dead(s: State, t: Token)
  {
    t in s.root && t !in s.records && (t in s.disk ==> s.disk[t].exp <= s.clock)
  }

  lemma RevokeKeepsDead(s: State, username: string, saves: bool, t: Token)
    requires Dead(s, t)
    ensures Dead(DoRevoke(s, username, saves), t) && DoRevoke(s, username, saves).exchanged == s.exchanged
  {
  }

  lemma AttemptKeepsDead(s: State, token: Token, minted: Token, late: nat, saves: bool, t: Token)
    requires Dead(s, t)
    ensures var r := Attempt(s, token, minted, late, saves); Dead(r, t) && r.exchanged == s.exchanged
  {
  }

  lemma DeadStaysDeadOneStep(s: State, e: Event, t: Token)
    requires Dead(s, t)
    ensures Dead(Step(s, e), t) && Step(s, e).exchanged[t] == s.exchanged[t]
  {
    hide DoRevoke, Attempt;
    match e {
      case Refresh(token, minted, late, saves, sessionWorks, revokeSaves) =>
        var r := Attempt(s, token, minted, late, saves);
        AttemptKeepsDead(s, token, minted, late, saves, t);
        if Succeeds(s, token, minted, late, saves) {
          RevokeKeepsDead(r, s.records[token].username, revokeSaves, t);
        }
      case Revoke(username, saves) => RevokeKeepsDead(s, username, saves, t);
      case _ =>
    }
  }

  /** Whatever follows, a dead token is never accepted. */
  lemma {:induction false} DeadStaysDead(s: State, more: seq<Event>, t: Token)
    requires Dead(s, t)
    ensures Dead(RunFrom(s, more), t) && RunFrom(s, more).exchanged[t] == s.exchanged[t]
  {
    if more != [] {
      DeadStaysDead(s, more[..|more| - 1], t);
      DeadStaysDeadOneStep(RunFrom(s, more[..|more| - 1]), more[|more| - 1], t);
    }
  }

  /** The file holds an unexpired token of the user. */
  predicate HasLiveTokenOf(records: Records, username: string, clock: int)
  {
    HasTokenOf(Prune(records, clock), username)
  }

  /** Memory and file agree on the tokens that have not expired. */
  ghost predicate Synced(s: State)
  {
    Prune(s.disk, s.clock) == Prune(s.records, s.clock)
  }

  /**
   * After a revocation that returned normally, no earlier token of the user is
   * ever accepted, provided memory held one (so the file was rewritten) or the
   * file holds none that is still valid.
   */
  lemma RevocationIsFinal(events: seq<Event>, username: string, more: seq<Event>, t: Token)
    requires EarlierTokenOf(Run(events), username, t)
    requires var s := Run(events); HasTokenOf(s.records, username) || !HasLiveTokenOf(s.disk, username, s.clock)
    ensures RunFrom(Step(Run(events), Revoke(username, true)), more).exchanged[t] == Run(events).exchanged[t]
    ensures t !in RunFrom(Step(Run(events), Revoke(username, true)), more).records
  {
    RunKeepsInv(events);
    var s := Run(events);
    var r := Step(s, Revoke(username, true));
    assert t in r.records ==> RecordOk(t, r.records[t], s.logins, s.root, s.exchanged);
    assert t in r.disk ==> RecordOk(t, r.disk[t], s.logins, s.root, s.exchanged);
    assert t in r.disk && r.disk[t].exp > s.clock ==> t in Prune(r.disk, s.clock);
    DeadStaysDead(r, more, t);
  }

  /**
   * Otherwise one comes back: a revocation that finds nothing in memory does not
   * touch the file, and a valid token there is accepted after a restart.
   */
  lemma UnsavedRevocationComesBack(events: seq<Event>, username: string, minted: Token) returns (t: Token)
    requires var s := Run(events);
             && !HasTokenOf(s.records, username) && HasLiveTokenOf(s.disk, username, s.clock) && minted !in s.root
    ensures var s := Run(events);
            var r := Step(Step(s, Revoke(username, true)), Reload(true));
            var u := Step(r, Refresh(t, minted, 0, true, true, true));
            EarlierTokenOf(s, username, t) && u.exchanged[t] == s.exchanged[t] + 1
  {
    RunKeepsInv(events);
    var s := Run(events);
    t :| t in Prune(s.disk, s.clock) && Prune(s.disk, s.clock)[t].username == username;
    assert RecordOk(t, s.disk[t], s.logins, s.root, s.exchanged);
  }

  /** How the two come apart: the first revocation's save fails, the second finds nothing and returns normally. */
  lemma FailedSaveThenRevokeAgain(username: string, t: Token)
    ensures var s := Run([Issue(username, t, true)] + [Revoke(username, false)]);
            !HasTokenOf(s.records, username) && HasLiveTokenOf(s.disk, username, s.clock)
  {
    var a := Step(INITIAL, Issue(username, t, true));
    assert RunFrom(INITIAL, []) == INITIAL;
    assert [Issue(username, t, true)][..0] == [];
    assert ([Issue(username, t, true)] + [Revoke(username, false)])[..1] == [Issue(username, t, true)];
    assert Run([Issue(username, t, true)]) == a;
    assert t in a.records && a.records[t].username == username;
    assert HasTokenOf(a.records, username);
    assert t in Prune(a.disk, a.clock) && Prune(a.disk, a.clock)[t].username == username;
  }

  predicate Clean(e: Event)
  {
    match e
    case Issue(_, _, saves) => saves
    case Refresh(_, _, _, saves, _, revokeSaves) => saves && revokeSaves
    case Revoke(_, saves) => saves
    case Reload(readable) => readable
    case Tick(_) => true
  }

  lemma PruneAgain(a: Records, t: int, u: int)
    requires t <= u
    ensures Prune(Prune(a, t), u) == Prune(a, u)
  {
  }

  lemma TimeKeepsSync(s: State, later: int)
    requires Synced(s) && s.clock <= later
    ensures Prune(s.disk, later) == Prune(s.records, later)
  {
    PruneAgain(s.disk, s.clock, later);
    PruneAgain(s.records, s.clock, later);
  }

  lemma RevokeKeepsSync(s: State, username: string)
    requires Synced(s)
    ensures Synced(DoRevoke(s, username, true))
  {
  }

  lemma AttemptKeepsSync(s: State, token: Token, minted: Token, late: nat)
    requires Synced(s)
    ensures Synced(Attempt(s, token, minted, late, true))
  {
    TimeKeepsSync(s, s.clock + late);
    PruneAgain(s.records, s.clock, s.clock + late);
    hide Prune;
  }

  lemma CleanStepKeepsSync(s: State, e: Event)
    requires Clean(e) && (Synced(s) || e.Reload?)
    ensures Synced(Step(s, e))
  {
    match e {
      case Refresh(token, minted, late, saves, sessionWorks, revokeSaves) =>
        hide DoRevoke, Attempt, Prune;
        var r := Attempt(s, token, minted, late, true);
        AttemptKeepsSync(s, token, minted, late);
        if Succeeds(s, token, minted, late, true) {
          RevokeKeepsSync(r, s.records[token].username);
        }
      case Revoke(username, saves) => RevokeKeepsSync(s, username);
      case Tick(seconds) => TimeKeepsSync(s, s.clock + seconds);
      case Reload(_) => PruneAgain(s.disk, s.clock, s.clock);
      case Issue(_, _, _) =>
    }
  }

  /** A failed save counts as a crash: what follows it at once is a restart that can read the file. */
  predicate FailuresRestart(events: seq<Event>)
  {
    && (forall n :: 0 < n < |events| ==> Clean(events[n - 1]) || events[n] == Reload(true))
    && (events != [] ==> Clean(events[|events| - 1]))
  }

  lemma {:induction false} RestartsKeepSync(events: seq<Event>)
    requires FailuresRestart(events)
    ensures Synced(Run(events))
    decreases |events|
  {
    if events != [] {
      var before := events[..|events| - 1];
      var e := events[|events| - 1];
      if e == Reload(true) {
        CleanStepKeepsSync(Run(before), e);
      } else {
        forall n | 0 < n < |before| ensures Clean(before[n - 1]) || before[n] == Reload(true) {
          assert Clean(events[n - 1]) || events[n] == Reload(true);
        }
        if before != [] {
          var last := |events| - 1;
          assert Clean(events[last - 1]);
        }
        RestartsKeepSync(before);
        CleanStepKeepsSync(Run(before), e);
      }
    }
  }

  /** Where every failed save is followed by a restart, a revocation is final. */
  lemma RevocationIsFinalAcrossRestarts(events: seq<Event>, username: string, more: seq<Event>, t: Token)
    requires FailuresRestart(events) && EarlierTokenOf(Run(events), username, t)
    ensures var u := RunFrom(Step(Run(events), Revoke(username, true)), more);
            t !in u.records && u.exchanged[t] == Run(events).exchanged[t]
  {
    RestartsKeepSync(events);
    var s := Run(events);
    if HasLiveTokenOf(s.disk, username, s.clock) {
      var k :| k in Prune(s.disk, s.clock) && Prune(s.disk, s.clock)[k].username == username;
      assert k in Prune(s.records, s.clock) && s.records[k].username == username;
    }
    RevocationIsFinal(events, username, more, t);
  }
}
