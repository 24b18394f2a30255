/**
 * What a client sees of the refresh tokens: how long one is accepted, and what
 * each operation leaves in memory and in the file.
 */
module RefreshEffects {
  import opened RefreshTokens

  // ----- the term of a token -----------------------------------------------------

  /** Events that leave a token alone: anything but its own refresh, its user's revocation and a restart. */
  predicate Bystander(e: Event, t: Token, username: string)
  {
    match e
    case Issue(_, _, _) => true
    case Refresh(token, _, _, _, sessionWorks, _) => token != t && sessionWorks
    case Revoke(u, _) => u != username
    case Reload(_) => false
    case Tick(_) => true
  }

  predicate BystandersOnly(events: seq<Event>, t: Token, username: string)
  {
    forall i :: 0 <= i < |events| ==> Bystander(events[i], t, username)
  }

  /** The token stands in memory until its end, for its user. */
  predicate Running(s: State, t: Token, username: string, end: int)
  {
    t in s.root && (t in s.records ==> s.records[t] == Rec(username, end)) && (s.clock < end ==> t in s.records)
  }

  lemma OtherRefreshKeepsRunning(s: State, e: Event, t: Token, username: string, end: int)
    requires Running(s, t, username, end) && e.Refresh? && e.token != t && e.sessionWorks
    ensures Running(Step(s, e), t, username, end)
  {
    var p := s.(records := Prune(s.records, s.clock), clock := s.clock + e.late);
    assert Running(p, t, username, end);
    var r := Attempt(s, e.token, e.minted, e.late, e.saves);
    assert Running(r, t, username, end);
    hide Attempt;
  }

  lemma BystanderKeepsRunning(s: State, e: Event, t: Token, username: string, end: int)
    requires Running(s, t, username, end) && Bystander(e, t, username)
    ensures Running(Step(s, e), t, username, end)
  {
    if e.Refresh? {
      OtherRefreshKeepsRunning(s, e, t, username, end);
    }
    hide DoRefresh;
  }

  lemma {:induction false} BystandersKeepRunning(s: State, more: seq<Event>, t: Token, username: string, end: int)
    requires Running(s, t, username, end) && BystandersOnly(more, t, username)
    ensures Running(RunFrom(s, more), t, username, end)
  {
    if more != [] {
      BystandersKeepRunning(s, more[..|more| - 1], t, username, end);
      BystanderKeepsRunning(RunFrom(s, more[..|more| - 1]), more[|more| - 1], t, username, end);
    }
  }

  /** The event hands the token to a client: a login, or a refresh that ends in a session. */
  predicate HandsOut(s: State, e: Event, t: Token, username: string)
  {
    match e
    case Issue(u, minted, saves) => minted == t && u == username && saves && t !in s.root
    case Refresh(token, minted, _, _, _, _) =>
      && minted == t && Step(s, e).exchanged == s.exchanged + multiset{token}
      && token in s.records && s.records[token].username == username
    case _ => false
  }

  lemma OnlyExchangesCount(s: State, e: Event)
    requires e.Refresh? && Step(s, e).exchanged == s.exchanged + multiset{e.token}
    ensures Succeeds(s, e.token, e.minted, e.late, e.saves) && e.sessionWorks
  {
    assert (s.exchanged + multiset{e.token})[e.token] == s.exchanged[e.token] + 1;
  }

  lemma HandedOutIsRunning(s: State, e: Event, t: Token, username: string)
    requires HandsOut(s, e, t, username)
    ensures Running(Step(s, e), t, username, Step(s, e).clock + 1209600)
  {
    if e.Refresh? {
      OnlyExchangesCount(s, e);
    }
  }

  lemma RunningIsExchangedInTime(v: State, t: Token, username: string, end: int, next: Token, late: nat,
      revokeSaves: bool)
    requires Running(v, t, username, end) && next !in v.root
    ensures var w := Step(v, Refresh(t, next, late, true, true, revokeSaves));
            if v.clock + late < end then
              w.exchanged == v.exchanged + multiset{t} && next in w.records && w.records[next].username == username
            else w.exchanged == v.exchanged && next !in w.root && t !in w.records
  {
    if v.clock + late < end {
      assert Succeeds(v, t, next, late, true);
    }
  }

  /**
   * A token handed out by a login or by a refresh is exchanged, once, by any
   * working refresh less than fourteen days after that moment and by none from
   * then on, whatever happened in between to other tokens and other users.
   */
  lemma TokenLivesItsTerm(events: seq<Event>, e: Event, t: Token, username: string, more: seq<Event>, next: Token,
      late: nat, revokeSaves: bool)
    requires HandsOut(Run(events), e, t, username) && BystandersOnly(more, t, username)
    requires next !in RunFrom(Step(Run(events), e), more).root
    ensures var u := Step(Run(events), e);
            var v := RunFrom(u, more);
            var w := Step(v, Refresh(t, next, late, true, true, revokeSaves));
            if v.clock + late < u.clock + 1209600 then
              w.exchanged == v.exchanged + multiset{t} && next in w.records && w.records[next].username == username
            else w.exchanged == v.exchanged && next !in w.root && t !in w.records
  {
    hide Step, Run, RunFrom, Running, HandsOut, BystandersOnly;
    var u := Step(Run(events), e);
    HandedOutIsRunning(Run(events), e, t, username);
    BystandersKeepRunning(u, more, t, username, u.clock + 1209600);
    RunningIsExchangedInTime(RunFrom(u, more), t, username, u.clock + 1209600, next, late, revokeSaves);
  }

  // ----- what each operation leaves behind -----------------------------------------

  /** Memory afterwards holds what has not expired at `clock`, without the tokens in `gone`. */
  ghost predicate Unexpired(a: Records, b: Records, clock: int, gone: set<Token>)
  {
    && (forall k :: k in b <==> k in a && a[k].exp > clock && k !in gone)
    && (forall k :: k in b ==> b[k] == a[k])
  }

  /** A login adds its token; a failed save leaves the file, not the memory, as it was. */
  lemma IssueEffect(s: State, username: string, t: Token, saves: bool)
    requires t !in s.root
    ensures var u := Step(s, Issue(username, t, saves));
            && t in u.records && Unexpired(s.records, u.records - {t}, s.clock, {t})
            && u.disk == (if saves then u.records else s.disk) && u.clock == s.clock
            && u.exchanged == s.exchanged && u.logins == s.logins + [username]
  {
  }

  /** A valid token is consumed in memory even when the save fails; the file keeps it and nobody gets the new one. */
  lemma UnsavedRefreshConsumes(s: State, t: Token, next: Token, late: nat, sessionWorks: bool, revokeSaves: bool)
    requires t in s.records && t in s.root && next !in s.root && s.records[t].exp > s.clock + late
    ensures var u := Step(s, Refresh(t, next, late, false, sessionWorks, revokeSaves));
            && t !in u.records && u.disk == s.disk && u.exchanged == s.exchanged && u.clock == s.clock + late
            && Unexpired(s.records, u.records - {next}, s.clock, {t, next})
  {
  }

  /** An unknown token drops what has expired; one that expires meanwhile goes too, and from the file. */
  lemma RefusedRefresh(s: State, t: Token, next: Token, late: nat, saves: bool, sessionWorks: bool, revokeSaves: bool)
    requires next !in s.root && (t in s.records ==> t in s.root && s.records[t].exp <= s.clock + late)
    ensures var u := Step(s, Refresh(t, next, late, saves, sessionWorks, revokeSaves));
            && Unexpired(s.records, u.records, s.clock, {t}) && u.exchanged == s.exchanged
            && u.disk == (if saves && t in s.records && s.records[t].exp > s.clock then u.records else s.disk)
            && u.clock == s.clock + late && u.root == s.root
  {
  }

  /** An exchange for a user who can have no session leaves the user no token in memory, and other users theirs. */
  lemma RefreshWithoutSession(s: State, t: Token, next: Token, late: nat, revokeSaves: bool)
    requires t in s.records && t in s.root && next !in s.root && s.records[t].exp > s.clock + late
    ensures var u := Step(s, Refresh(t, next, late, true, false, revokeSaves));
            && u.exchanged == s.exchanged
            && (forall k :: k in u.records <==>
                  k in s.records && k != next && s.records[k].exp > s.clock
                  && s.records[k].username != s.records[t].username)
            && (revokeSaves ==> u.disk == u.records)
  {
    var r := Attempt(s, t, next, late, true);
    assert next in r.records && r.records[next].username == s.records[t].username;
    assert HasTokenOf(r.records, s.records[t].username);
  }

  /** A revocation takes exactly the user's tokens, and writes the file only if there were any. */
  lemma RevocationEffect(s: State, username: string, saves: bool)
    ensures var u := Step(s, Revoke(username, saves));
            && (forall k :: k in u.records <==> k in s.records && s.records[k].username != username)
            && (forall k :: k in u.records ==> u.records[k] == s.records[k])
            && u.disk == (if saves && u.records != s.records then u.records else s.disk)
            && u.clock == s.clock && u.exchanged == s.exchanged
  {
    var u := Step(s, Revoke(username, saves));
    if HasTokenOf(s.records, username) {
      var k :| k in s.records && s.records[k].username == username;
      assert k !in u.records;
    }
  }

  /** A restart has what the file has and is not expired; with no readable file it starts empty. */
  lemma RestartEffect(s: State, readable: bool)
    ensures var u := Step(s, Reload(readable));
            && u == s.(records := u.records)
            && (if readable then Unexpired(s.disk, u.records, s.clock, {}) else u.records == map[])
  {
  }

  lemma TickEffect(s: State, seconds: nat)
    ensures var u := Step(s, Tick(seconds)); u.clock == s.clock + seconds && u == s.(clock := u.clock)
  {
  }
}
