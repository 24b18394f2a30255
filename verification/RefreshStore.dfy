/** `RefreshTokenStore` and the refresh path of `CeWebAuthService` as objects updated in place. */
module RefreshStore {
  import opened Text
  import opened RefreshTokens

  datatype Exchange = Exchanged(username: string, token: Token) | Refused | SaveFailed

  class RefreshTokenStore {
    var records: Records
    var file: Records
    var clock: int
    ghost var logins: seq<string>
    ghost var root: map<Token, nat>
    ghost var exchanged: multiset<Token>

    ghost function View(): State
      reads this
    {
      State(records, file, clock, logins, root, exchanged)
    }

    constructor ()
      ensures View() == INITIAL
    {
      records, file, clock := map[], map[], 0;
      logins, root, exchanged := [], map[], multiset{};
    }

    /** `for k in keys: del self._records[k]` */
    method DeleteAll(keys: set<Token>)
      requires keys <= records.Keys
      modifies this`records
      ensures records == old(records) - keys && |old(records)| - |records| == |keys|
    {
      var todo := keys;
      while todo != {}
        invariant todo <= keys && records == old(records) - (keys - todo)
        decreases todo
      {
        var k :| k in todo;
        OneMoreDeleted(old(records), keys - todo, k);
        assert keys - (todo - {k}) == (keys - todo) + {k};
        records := records - {k};
        todo := todo - {k};
      }
      assert keys - todo == keys;
      DeletedCount(old(records), keys);
    }

    /** `_prune`: collect the expired keys, then delete them. */
    method PruneExpired()
      modifies this`records
      ensures records == Prune(old(records), clock)
    {
      var expired := set k | k in records && records[k].exp <= clock;
      DeleteAll(expired);
    }

    /** `_save`: the file is replaced whole, or left as it was. */
    method Save(works: bool) returns (saved: bool)
      modifies this`file
      ensures saved == works && file == (if works then records else old(file))
    {
      if works {
        file := records;
      }
      return works;
    }

    /** `_load`, on construction after a restart. */
    method Load(readable: bool)
      modifies this`records
      ensures View() == Step(old(View()), Reload(readable))
    {
      if !readable {
        records := map[];
        return;
      }
      records := file;
      PruneExpired();
    }

    /** None when the save raised: the caller has no token then. */
    method IssueToken(username: string, minted: Token, saves: bool) returns (token: Option<Token>)
      requires minted !in root
      modifies this`records, this`file, this`logins, this`root
      ensures View() == Step(old(View()), Issue(username, minted, saves))
      ensures token == if saves then Some(minted) else None
    {
      ghost var next := Step(View(), Issue(username, minted, saves));
      PruneExpired();
      records := records[minted := Rec(username, clock + TTL)];
      var saved := Save(saves);
      logins, root := next.logins, next.root;
      return if saved then Some(minted) else None;
    }

    method ConsumeAndRotate(token: Token, minted: Token, late: nat, saves: bool) returns (r: Exchange)
      requires minted !in root && records.Keys <= root.Keys
      modifies this`records, this`file, this`clock, this`root
      ensures View() == Attempt(old(View()), token, minted, late, saves)
      ensures r.Exchanged? <==> Succeeds(old(View()), token, minted, late, saves)
      ensures r.Exchanged? ==> r == Exchanged(old(records)[token].username, minted)
    {
      PrunedToken(records, clock, token);
      hide Succeeds, Prune;
      ghost var before := View();
      PruneExpired();
      clock := clock + late;
      Succeeding(before, token, minted, late, saves);
      if token !in records {
        return Refused;
      }
      var record := records[token];
      if record.exp <= clock {
        records := records - {token};
        var saved := Save(saves);
        return if saved then Refused else SaveFailed;
      }
      records := records - {token};
      records := records[minted := Rec(record.username, clock + TTL)];
      root := root[minted := root[token]];
      var saved := Save(saves);
      return if saved then Exchanged(record.username, minted) else SaveFailed;
    }

    /** The number of tokens removed; saved only if there were any. */
    method RevokeUser(username: string, saves: bool) returns (removed: nat, raised: bool)
      modifies this`records, this`file
      ensures View() == Step(old(View()), Revoke(username, saves))
      ensures removed == |old(records)| - |records|
      ensures removed == 0 <==> !HasTokenOf(old(records), username)
      ensures raised <==> removed != 0 && !saves
    {
      var victims := set k | k in records && records[k].username == username;
      VictimsAreTheRest(records, username, victims);
      DeleteAll(victims);
      raised := false;
      if victims != {} {
        var saved := Save(saves);
        raised := !saved;
      }
      removed := |victims|;
    }
  }

  lemma PrunedToken(records: Records, clock: int, token: Token)
    ensures var p := Prune(records, clock);
      && (token in p <==> token in records && records[token].exp > clock)
      && (token in p ==> p[token] == records[token])
  {
  }

  lemma Succeeding(s: State, token: Token, minted: Token, late: nat, saves: bool)
    requires minted !in s.root && s.records.Keys <= s.root.Keys
    ensures Succeeds(s, token, minted, late, saves)
            <==> token in s.records && s.records[token].exp > s.clock + late && saves
  {
  }

  lemma OneMoreDeleted(records: Records, gone: set<Token>, k: Token)
    ensures records - gone - {k} == records - (gone + {k})
  {
  }

  lemma DeletedCount(records: Records, keys: set<Token>)
    requires keys <= records.Keys
    ensures |records| - |records - keys| == |keys|
  {
    assert records.Keys == (records - keys).Keys + keys;
  }

  lemma VictimsAreTheRest(records: Records, username: string, victims: set<Token>)
    requires victims == set k | k in records && records[k].username == username
    ensures records - victims == Without(records, username)
    ensures victims == {} <==> !HasTokenOf(records, username)
    ensures victims == {} ==> records - victims == records
  {
    if victims != {} {
      var k :| k in victims;
      assert k in records && records[k].username == username;
    }
    if HasTokenOf(records, username) {
      var t :| t in records && records[t].username == username;
      assert t in victims;
    }
  }

  /** `CeWebAuthService.refresh`: exchange, then a session, or revocation when none can be issued. */
  method RefreshSession(store: RefreshTokenStore, token: Token, minted: Token, late: nat, saves: bool,
                        sessionWorks: bool, revokeSaves: bool) returns (renewed: Option<Token>)
    requires minted !in store.root && store.records.Keys <= store.root.Keys
    modifies store
    ensures store.View() == Step(old(store.View()), Refresh(token, minted, late, saves, sessionWorks, revokeSaves))
    ensures renewed.Some? ==> renewed.value == minted && store.exchanged == old(store.exchanged) + multiset{token}
  {
    var r := store.ConsumeAndRotate(token, minted, late, saves);
    if !r.Exchanged? {
      return None;
    }
    if !sessionWorks {
      var removed, raised := store.RevokeUser(r.username, revokeSaves);
      return None;
    }
    store.exchanged := store.exchanged + multiset{token};
    return Some(minted);
  }
}
