/**
 * What the fingerprint of a dynamic client registration identifies (`dcr_shim.py`,
 * behind the registration endpoint of section 3 of RFC 7591).
 */
module Fingerprints {
  import opened Text

  // ----- the fingerprint input ---------------------------------------------

  function Insert(x: string, s: seq<string>): seq<string>
  {
    if s == [] || AtMost(x, s[0]) then [x] + s else [s[0]] + Insert(x, s[1..])
  }

  /** `sorted(s)` */
  function Sort(s: seq<string>): seq<string>
  {
    if s == [] then [] else Insert(s[0], Sort(s[1..]))
  }

  /** `"\n".join(parts)` */
  function Join(parts: seq<string>): string
  {
    if parts == [] then "" else if |parts| == 1 then parts[0] else parts[0] + "\n" + Join(parts[1..])
  }

  /** What `compute_fingerprint` hashes; the hash is taken to be injective. */
  function FingerprintInput(softwareId: Option<string>, redirects: seq<string>): string
  {
    Join([softwareId.GetOr("")] + Sort(redirects))
  }

  predicate Ascending(s: seq<string>)
  {
    forall i, j :: 0 <= i < j < |s| ==> AtMost(s[i], s[j])
  }

  lemma AtMostTotal(x: string, y: string)
    ensures AtMost(x, y) || AtMost(y, x)
    ensures AtMost(x, y) && AtMost(y, x) ==> x == y
  {
    BelowIsStrictTotal(x, y);
  }

  lemma AtMostTransitive(x: string, y: string, z: string)
    requires AtMost(x, y) && AtMost(y, z)
    ensures AtMost(x, z)
  {
    if Below(x, y) && Below(y, z) {
      BelowTransitive(x, y, z);
    }
  }

  lemma {:induction false} InsertSorts(x: string, s: seq<string>)
    requires Ascending(s)
    ensures Ascending(Insert(x, s)) && multiset(Insert(x, s)) == multiset{x} + multiset(s)
  {
    if s == [] {
    } else if AtMost(x, s[0]) {
      forall j | 0 <= j < |s| ensures AtMost(x, s[j]) {
        if j > 0 { AtMostTransitive(x, s[0], s[j]); }
      }
    } else {
      AtMostTotal(x, s[0]);
      InsertSorts(x, s[1..]);
      assert s == [s[0]] + s[1..];
      var t := Insert(x, s[1..]);
      forall j | 0 <= j < |t| ensures AtMost(s[0], t[j]) {
        assert t[j] in multiset(t);
        assert t[j] == x || t[j] in multiset(s[1..]);
      }
    }
  }

  lemma {:induction false} SortSorts(s: seq<string>)
    ensures Ascending(Sort(s)) && multiset(Sort(s)) == multiset(s)
  {
    if s != [] {
      SortSorts(s[1..]);
      InsertSorts(s[0], Sort(s[1..]));
      assert s == [s[0]] + s[1..];
    }
  }

  lemma HeadIsLeast(s: seq<string>, t: seq<string>)
    requires Ascending(s) && s != [] && t != [] && multiset(s) == multiset(t)
    ensures AtMost(s[0], t[0])
  {
    assert t[0] in multiset(s);
    var j :| 0 <= j < |s| && s[j] == t[0];
  }

  lemma {:induction false} AscendingIsUnique(s: seq<string>, t: seq<string>)
    requires Ascending(s) && Ascending(t) && multiset(s) == multiset(t)
    ensures s == t
  {
    assert |multiset(s)| == |s| && |multiset(t)| == |t|;
    if s != [] {
      HeadIsLeast(s, t);
      HeadIsLeast(t, s);
      AtMostTotal(s[0], t[0]);
      assert s == [s[0]] + s[1..] && t == [t[0]] + t[1..];
      assert multiset(s[1..]) == multiset(s) - multiset{s[0]};
      assert multiset(t[1..]) == multiset(t) - multiset{t[0]};
      AscendingIsUnique(s[1..], t[1..]);
    }
  }

  predicate NewlineFree(s: string)
  {
    '\n' !in s
  }

  /** The first line of a text, as a joined list shows it. */
  lemma FirstPart(a: string, x: string, b: string, y: string)
    requires NewlineFree(a) && NewlineFree(b) && a + "\n" + x == b + "\n" + y
    ensures a == b && x == y
  {
    var s := a + "\n" + x;
    assert s[|a|] == '\n' && s[|b|] == '\n';
    assert forall k :: 0 <= k < |a| ==> s[k] == a[k];
    assert forall k :: 0 <= k < |b| ==> s[k] == b[k];
    assert s[..|a|] == a && s[..|b|] == b;
    assert s[|a| + 1..] == x && s[|b| + 1..] == y;
  }

  lemma JoinBreaksLines(s: seq<string>)
    requires s != [] && forall i :: 0 <= i < |s| ==> NewlineFree(s[i])
    ensures NewlineFree(Join(s)) <==> |s| == 1
    ensures |s| == 1 ==> Join(s) == s[0] && s == [Join(s)]
  {
    if |s| > 1 {
      assert Join(s)[|s[0]|] == '\n';
    }
  }

  lemma {:induction false} JoinInjective(s: seq<string>, t: seq<string>)
    requires s != [] && t != [] && Join(s) == Join(t)
    requires forall i :: 0 <= i < |s| ==> NewlineFree(s[i])
    requires forall i :: 0 <= i < |t| ==> NewlineFree(t[i])
    ensures s == t
  {
    JoinBreaksLines(s);
    JoinBreaksLines(t);
    if |s| == 1 || |t| == 1 {
    } else {
      FirstPart(s[0], Join(s[1..]), t[0], Join(t[1..]));
      JoinInjective(s[1..], t[1..]);
      assert s == [s[0]] + s[1..] && t == [t[0]] + t[1..];
    }
  }

  /** Equal as far as the fingerprint is meant to tell: an absent software id counts as the empty one. */
  predicate SameRegistration(a: Option<string>, r: seq<string>, b: Option<string>, q: seq<string>)
  {
    a.GetOr("") == b.GetOr("") && multiset(r) == multiset(q)
  }

  predicate AllNewlineFree(softwareId: Option<string>, redirects: seq<string>)
  {
    NewlineFree(softwareId.GetOr("")) && forall i :: 0 <= i < |redirects| ==> NewlineFree(redirects[i])
  }

  lemma PartsAreNewlineFree(softwareId: Option<string>, redirects: seq<string>)
    requires AllNewlineFree(softwareId, redirects)
    ensures forall i :: 0 <= i < |Sort(redirects)| ==> NewlineFree(Sort(redirects)[i])
  {
    SortSorts(redirects);
    forall i | 0 <= i < |Sort(redirects)| ensures NewlineFree(Sort(redirects)[i]) {
      assert Sort(redirects)[i] in multiset(redirects);
    }
  }

  /** Without line breaks two registrations share a fingerprint exactly when they agree up to the order of redirects. */
  lemma FingerprintIdentifiesExactly(a: Option<string>, r: seq<string>, b: Option<string>, q: seq<string>)
    requires AllNewlineFree(a, r) && AllNewlineFree(b, q)
    ensures FingerprintInput(a, r) == FingerprintInput(b, q)
            <==> SameRegistration(a, r, b, q)
  {
    hide Sort, Insert;
    SortSorts(r);
    SortSorts(q);
    var s, t := [a.GetOr("")] + Sort(r), [b.GetOr("")] + Sort(q);
    if FingerprintInput(a, r) == FingerprintInput(b, q) {
      PartsAreNewlineFree(a, r);
      PartsAreNewlineFree(b, q);
      JoinInjective(s, t);
      assert s[0] == t[0] && s[1..] == Sort(r) && t[1..] == Sort(q);
    } else if multiset(r) == multiset(q) {
      AscendingIsUnique(Sort(r), Sort(q));
    }
  }

  // ----- all inputs ------------------------------------------------------------

  /** `s.split("\n")`. */
  function Pieces(s: string): seq<string>
  {
    if s == "" then [""]
    else
      var rest := Pieces(s[1..]);
      if s[0] == '\n' then [""] + rest else [[s[0]] + rest[0]] + rest[1..]
  }

  function AllPieces(parts: seq<string>): seq<string>
  {
    if parts == [] then [] else Pieces(parts[0]) + AllPieces(parts[1..])
  }

  lemma {:induction false} PiecesRejoin(s: string)
    ensures Pieces(s) != [] && Join(Pieces(s)) == s
  {
    if s != "" {
      PiecesRejoin(s[1..]);
      var rest := Pieces(s[1..]);
      assert s == [s[0]] + s[1..];
      if s[0] == '\n' {
        assert ([""] + rest)[1..] == rest;
      } else {
        var p := [[s[0]] + rest[0]] + rest[1..];
        assert p[1..] == rest[1..] && rest == [rest[0]] + rest[1..];
        PrefixedJoin(rest, [s[0]]);
      }
    }
  }

  lemma PrefixedJoin(parts: seq<string>, x: string)
    requires parts != []
    ensures Join([x + parts[0]] + parts[1..]) == x + Join(parts)
  {
    var p := [x + parts[0]] + parts[1..];
    assert p[1..] == parts[1..];
    if |parts| > 1 {
      assert x + parts[0] + "\n" + Join(parts[1..]) == x + (parts[0] + "\n" + Join(parts[1..]));
    }
  }

  lemma PiecesStep(s: string)
    requires s != ""
    ensures Pieces(s[1..]) != []
    ensures Pieces(s) == if s[0] == '\n' then [""] + Pieces(s[1..])
                         else [[s[0]] + Pieces(s[1..])[0]] + Pieces(s[1..])[1..]
  {
    PiecesRejoin(s[1..]);
  }

  lemma CharacterThenPieces(c: char, p: seq<string>, q: seq<string>)
    requires p != []
    ensures [[c] + (p + q)[0]] + (p + q)[1..] == ([[c] + p[0]] + p[1..]) + q
    ensures [""] + (p + q) == [""] + p + q
  {
    assert (p + q)[1..] == p[1..] + q;
  }

  lemma {:induction false} PiecesOfTwo(a: string, x: string)
    ensures Pieces(a + "\n" + x) == Pieces(a) + Pieces(x)
  {
    var s := a + "\n" + x;
    if a == "" {
      assert s[1..] == x;
    } else {
      PiecesOfTwo(a[1..], x);
      PiecesStep(s);
      PiecesStep(a);
      assert s[1..] == a[1..] + "\n" + x && s[0] == a[0];
      hide Pieces;
      CharacterThenPieces(a[0], Pieces(a[1..]), Pieces(x));
    }
  }

  lemma {:induction false} PiecesOfJoin(parts: seq<string>)
    requires parts != []
    ensures Pieces(Join(parts)) == AllPieces(parts)
  {
    if |parts| == 1 {
      assert AllPieces(parts[1..]) == [];
    } else {
      PiecesOfTwo(parts[0], Join(parts[1..]));
      PiecesOfJoin(parts[1..]);
    }
  }

  /** For all registrations: fingerprints agree exactly when software id and sorted redirects have the same lines. */
  lemma FingerprintsAgreeExactly(a: Option<string>, r: seq<string>, b: Option<string>, q: seq<string>)
    ensures FingerprintInput(a, r) == FingerprintInput(b, q)
            <==> AllPieces([a.GetOr("")] + Sort(r)) == AllPieces([b.GetOr("")] + Sort(q))
  {
    var s, t := [a.GetOr("")] + Sort(r), [b.GetOr("")] + Sort(q);
    PiecesOfJoin(s);
    PiecesOfJoin(t);
    PiecesRejoin(Join(s));
    PiecesRejoin(Join(t));
  }

  // ----- registrations the shim accepts ------------------------------------------

  /** `s.split(c, 1)[0]`. */
  function Before(s: string, c: char): string
  {
    if s == "" || s[0] == c then "" else [s[0]] + Before(s[1..], c)
  }

  /** `_is_loopback_http_uri` */
  predicate IsLoopback(u: string)
  {
    "http://" <= u && Before(Before(u[7..], '/'), ':') in ["localhost", "127.0.0.1"]
  }

  /** The redirects `parse_register_request` lets through; any software id will do. */
  predicate Accepted(redirects: seq<string>)
  {
    redirects != [] && forall i :: 0 <= i < |redirects| ==> IsLoopback(redirects[i])
  }

  lemma {:induction false} BeforeExactly(s: string, c: char)
    ensures c !in Before(s, c) && Before(s, c) <= s
    ensures Before(s, c) == s || s[|Before(s, c)|] == c
  {
    if s != "" && s[0] != c {
      var rest := Before(s[1..], c);
      BeforeExactly(s[1..], c);
      assert s == [s[0]] + s[1..] && Before(s, c) == [s[0]] + rest;
      assert rest == s[1..][..|rest|] && s[..|rest| + 1] == [s[0]] + rest;
      hide Before;
    }
  }

  lemma {:induction false} BeforeSkips(host: string, tail: string, c: char)
    requires c !in host
    ensures Before(host + tail, c) == host + Before(tail, c)
  {
    var s := host + tail;
    if host == "" {
      assert s == tail;
    } else {
      assert s[0] == host[0] && s[1..] == host[1..] + tail;
      BeforeSkips(host[1..], tail, c);
    }
  }

  /** The host ends at the first `/` or `:`, or with the text. */
  predicate HasHost(rest: string, host: string)
  {
    host <= rest && (|rest| == |host| || rest[|host|] == '/' || rest[|host|] == ':')
  }

  lemma BeforeFirst(x: string, c: char)
    requires x == "" || x[0] == c
    ensures Before(x, c) == ""
  {
  }

  lemma HostIsCut(rest: string, host: string)
    requires '/' !in host && ':' !in host && HasHost(rest, host)
    ensures Before(Before(rest, '/'), ':') == host
  {
    var tail := rest[|host|..];
    assert rest == host + tail;
    BeforeSkips(host, tail, '/');
    var front := Before(tail, '/');
    BeforeExactly(tail, '/');
    BeforeSkips(host, front, ':');
    if tail != "" && tail[0] == '/' {
      BeforeFirst(tail, '/');
    }
    assert front == "" || front[0] == tail[0];
    BeforeFirst(if front != "" && front[0] == ':' then front else "", ':');
    hide Before;
  }

  lemma CutIsHost(rest: string, host: string)
    requires Before(Before(rest, '/'), ':') == host
    ensures HasHost(rest, host)
  {
    hide Before;
    BeforeExactly(rest, '/');
    BeforeExactly(Before(rest, '/'), ':');
  }

  lemma HostExactly(rest: string, host: string)
    requires '/' !in host && ':' !in host
    ensures Before(Before(rest, '/'), ':') == host <==> HasHost(rest, host)
  {
    hide Before, HasHost;
    if HasHost(rest, host) {
      HostIsCut(rest, host);
    } else if Before(Before(rest, '/'), ':') == host {
      CutIsHost(rest, host);
    }
  }

  /** `u` is the page itself, or goes on with a port or a path. */
  predicate LocalPage(u: string, page: string)
  {
    page <= u && (|u| == |page| || u[|page|] == '/' || u[|page|] == ':')
  }

  lemma PageHasHost(rest: string, host: string)
    ensures LocalPage("http://" + rest, "http://" + host) <==> HasHost(rest, host)
  {
    var a, b := "http://" + host, "http://" + rest;
    assert forall i :: 0 <= i < |host| ==> a[7 + i] == host[i];
    assert forall i :: 0 <= i < |rest| ==> b[7 + i] == rest[i];
    if a <= b {
      assert forall i :: 0 <= i < |host| ==> host[i] == a[7 + i] == b[7 + i] == rest[i];
    }
  }

  /** A redirect is let through exactly when it is plain http to one of the two local hosts, with any port and path. */
  lemma LoopbackExactly(u: string)
    ensures IsLoopback(u) <==>
              || LocalPage(u, "http://localhost")
              || LocalPage(u, "http://127.0.0.1")
  {
    hide Before;
    if "http://" <= u {
      var rest := u[7..];
      assert u == "http://" + rest;
      HostExactly(rest, "localhost");
      HostExactly(rest, "127.0.0.1");
      PageHasHost(rest, "localhost");
      PageHasHost(rest, "127.0.0.1");
      assert "http://" + "localhost" == "http://localhost" && "http://" + "127.0.0.1" == "http://127.0.0.1";
      hide HasHost, LocalPage;
    } else {
      assert "http://localhost"[..7] == "http://" && "http://127.0.0.1"[..7] == "http://";
    }
  }

  /** Another accepted registration with the same fingerprint. */
  ghost predicate IsTwin(a: Option<string>, r: seq<string>, b: Option<string>, q: seq<string>)
  {
    Accepted(q) && !SameRegistration(a, r, b, q) && FingerprintInput(a, r) == FingerprintInput(b, q)
  }

  ghost predicate HasTwin(a: Option<string>, r: seq<string>)
  {
    exists b: Option<string>, q: seq<string> :: IsTwin(a, r, b, q)
  }

  /** The end of a software id, alone or with the redirect after it, reads as a redirect. */
  ghost predicate IdHidesRedirect(id: string, u: string)
  {
    exists p :: 0 <= p < |id| && id[p] == '\n'
                && (IsLoopback(id[p + 1..] + "\n" + u) || (IsLoopback(id[p + 1..]) && AtMost(id[p + 1..], u)))
  }

  /** The end of a redirect reads as a redirect. */
  ghost predicate RedirectHidesRedirect(u: string)
  {
    exists p :: 0 <= p < |u| && u[p] == '\n' && IsLoopback(u[p + 1..])
  }

  lemma {:induction false} JoinSnoc(parts: seq<string>, v: string)
    requires parts != []
    ensures Join(parts + [v]) == Join(parts) + "\n" + v
  {
    if |parts| > 1 {
      JoinSnoc(parts[1..], v);
      assert (parts + [v])[1..] == parts[1..] + [v];
      assert parts[0] + "\n" + (Join(parts[1..]) + "\n" + v) == parts[0] + "\n" + Join(parts[1..]) + "\n" + v;
    } else {
      assert (parts + [v])[1..] == [v];
    }
  }

  lemma SortOne(u: string)
    ensures Sort([u]) == [u]
  {
    assert [u][1..] == [] && Sort([u]) == Insert(u, []);
  }

  lemma SortAscending(s: seq<string>)
    requires Ascending(s)
    ensures Sort(s) == s
  {
    SortSorts(s);
    AscendingIsUnique(s, Sort(s));
  }

  lemma SortKeepsAccepted(r: seq<string>)
    requires Accepted(r)
    ensures Accepted(Sort(r)) && |Sort(r)| == |r|
  {
    hide IsLoopback;
    SortSorts(r);
    assert |multiset(r)| == |multiset(Sort(r))|;
    forall i | 0 <= i < |Sort(r)| ensures IsLoopback(Sort(r)[i]) {
      assert Sort(r)[i] in multiset(r);
    }
  }

  lemma JoinCons(x: string, rest: seq<string>)
    ensures Join([x] + rest) == if rest == [] then x else x + "\n" + Join(rest)
  {
    assert ([x] + rest)[1..] == rest;
  }

  lemma TailsDiffer(s: seq<string>, r: seq<string>)
    requires s != [] && multiset(s) == multiset(r)
    ensures multiset(s[1..]) != multiset(r)
  {
    assert |multiset(s[1..])| == |s| - 1 && |multiset(s)| == |s|;
  }

  lemma Regroup(a: string, b: string, c: string)
    ensures a + "\n" + (b + "\n" + c) == a + "\n" + b + "\n" + c
  {
  }

  lemma FirstRedirectMoves(id: string, s: seq<string>)
    requires |s| >= 2
    ensures Join([id] + s) == Join([id + "\n" + s[0]] + s[1..])
  {
    hide Join;
    JoinCons(id, s);
    assert s == [s[0]] + s[1..];
    JoinCons(s[0], s[1..]);
    JoinCons(id + "\n" + s[0], s[1..]);
    Regroup(id, s[0], Join(s[1..]));
  }

  lemma MovedFingerprint(a: Option<string>, r: seq<string>)
    requires |Sort(r)| >= 2
    ensures FingerprintInput(a, r) == FingerprintInput(Some(a.GetOr("") + "\n" + Sort(r)[0]), Sort(r)[1..])
  {
    SortSorts(r);
    hide Join, Sort;
    SortAscending(Sort(r)[1..]);
    FirstRedirectMoves(a.GetOr(""), Sort(r));
  }

  /** Every accepted registration with two redirects has a twin: the first redirect moved into the software id. */
  lemma TwoRedirectsHaveATwin(a: Option<string>, r: seq<string>)
    requires Accepted(r) && |r| >= 2
    ensures IsTwin(a, r, Some(a.GetOr("") + "\n" + Sort(r)[0]), Sort(r)[1..])
  {
    hide IsLoopback, Join, Sort, FingerprintInput, Ascending;
    SortKeepsAccepted(r);
    SortSorts(r);
    TailsDiffer(Sort(r), r);
    MovedFingerprint(a, r);
  }

  lemma OneRedirect(a: Option<string>, u: string)
    ensures FingerprintInput(a, [u]) == a.GetOr("") + "\n" + u
  {
    SortOne(u);
    JoinCons(a.GetOr(""), [u]);
    JoinCons(u, []);
    assert [u] + [] == [u];
  }

  lemma TwoRedirects(a: Option<string>, u: string, v: string)
    requires AtMost(u, v)
    ensures FingerprintInput(a, [u, v]) == a.GetOr("") + "\n" + (u + "\n" + v)
  {
    SortAscending([u, v]);
    hide Sort;
    JoinCons(a.GetOr(""), [u, v]);
    assert [u, v] == [u] + [v] && [v] + [] == [v];
    JoinCons(u, [v]);
    JoinCons(v, []);
  }

  lemma RedirectWithItsEndHidden(a: Option<string>, u: string)
    requires RedirectHidesRedirect(u)
    ensures HasTwin(a, [u])
  {
    hide IsLoopback, FingerprintInput;
    var id := a.GetOr("");
    var p :| 0 <= p < |u| && u[p] == '\n' && IsLoopback(u[p + 1..]);
    var b, v := Some(id + "\n" + u[..p]), u[p + 1..];
    OneRedirect(a, u);
    OneRedirect(b, v);
    assert u == u[..p] + "\n" + v;
    assert id + "\n" + (u[..p] + "\n" + v) == b.value + "\n" + v;
    assert IsTwin(a, [u], b, [v]);
  }

  lemma IdBeforeItsRedirect(a: Option<string>, u: string, id: string, v: string)
    requires a.GetOr("") == id + "\n" + v
    ensures IsLoopback(v + "\n" + u) ==> IsTwin(a, [u], Some(id), [v + "\n" + u])
    ensures IsLoopback(u) && IsLoopback(v) && AtMost(v, u) ==> IsTwin(a, [u], Some(id), [v, u])
  {
    OneRedirect(a, u);
    OneRedirect(Some(id), v + "\n" + u);
    if AtMost(v, u) {
      TwoRedirects(Some(id), v, u);
    }
    hide IsLoopback, FingerprintInput, AtMost;
    assert id + "\n" + v + "\n" + u == id + "\n" + (v + "\n" + u);
    assert |a.GetOr("")| > |id|;
  }

  lemma TwinFound(a: Option<string>, r: seq<string>, b: Option<string>, q: seq<string>)
    requires IsTwin(a, r, b, q)
    ensures HasTwin(a, r)
  {
    hide IsTwin;
  }

  lemma HiddenRedirectIsATwin(a: Option<string>, u: string)
    requires IsLoopback(u) && (IdHidesRedirect(a.GetOr(""), u) || RedirectHidesRedirect(u))
    ensures HasTwin(a, [u])
  {
    hide IsLoopback, FingerprintInput, IsTwin, HasTwin, AtMost;
    if RedirectHidesRedirect(u) {
      RedirectWithItsEndHidden(a, u);
    } else {
      var id := a.GetOr("");
      var p :| 0 <= p < |id| && id[p] == '\n'
               && (IsLoopback(id[p + 1..] + "\n" + u) || (IsLoopback(id[p + 1..]) && AtMost(id[p + 1..], u)));
      var before, v := id[..p], id[p + 1..];
      assert id == before + "\n" + v;
      IdBeforeItsRedirect(a, u, before, v);
      if IsLoopback(v + "\n" + u) {
        TwinFound(a, [u], Some(before), [v + "\n" + u]);
      } else {
        TwinFound(a, [u], Some(before), [v, u]);
      }
    }
  }

  /** Two cuts of one text at a line break. */
  lemma TwoCuts(a: string, u: string, w: string, v: string)
    requires a + "\n" + u == w + "\n" + v
    ensures |w| < |a| ==> a[|w|] == '\n' && v == a[|w| + 1..] + "\n" + u
    ensures |w| > |a| ==> u[|w| - |a| - 1] == '\n' && v == u[|w| - |a|..]
    ensures |w| == |a| ==> w == a && v == u
  {
    var t := a + "\n" + u;
    assert t[|w|] == '\n' && t[|w| + 1..] == v && t[..|w|] == w;
    assert t[..|a|] == a && t[|a| + 1..] == u;
    if |w| < |a| {
      assert t[|w| + 1..] == a[|w| + 1..] + "\n" + u;
    } else if |w| > |a| {
      assert t[|w| + 1..] == u[|w| - |a|..];
    }
  }

  /** The fingerprint input cut before its last redirect. */
  lemma LastRedirect(b: Option<string>, q: seq<string>)
    requires q != []
    ensures var s := Sort(q);
      s != [] && FingerprintInput(b, q) == Join([b.GetOr("")] + s[..|s| - 1]) + "\n" + s[|s| - 1]
  {
    SortSorts(q);
    assert |multiset(Sort(q))| == |multiset(q)|;
    hide Sort;
    var s := Sort(q);
    var front := [b.GetOr("")] + s[..|s| - 1];
    assert [b.GetOr("")] + s == front + [s[|s| - 1]];
    JoinSnoc(front, s[|s| - 1]);
  }

  lemma IdEndsInARedirect(id: string, u: string, b: string, s: seq<string>)
    requires |s| >= 2 && id == Join([b] + s[..|s| - 1]) && AtMost(s[|s| - 2], u) && IsLoopback(s[|s| - 2])
    ensures IdHidesRedirect(id, u)
  {
    hide IsLoopback, Join;
    var k := |s| - 1;
    var head := [b] + s[..k - 1];
    assert [b] + s[..k] == head + [s[k - 1]];
    JoinSnoc(head, s[k - 1]);
    var p := |Join(head)|;
    assert id[p] == '\n' && id[p + 1..] == s[k - 1];
  }

  lemma TwinsHideRedirects(a: Option<string>, u: string, b: Option<string>, q: seq<string>)
    requires IsTwin(a, [u], b, q)
    ensures IdHidesRedirect(a.GetOr(""), u) || RedirectHidesRedirect(u)
  {
    SortSorts(q);
    SortKeepsAccepted(q);
    LastRedirect(b, q);
    OneRedirect(a, u);
    JoinCons(b.GetOr(""), []);
    hide IsLoopback, Join, Sort, FingerprintInput;
    var id, s := a.GetOr(""), Sort(q);
    var k := |s| - 1;
    var w := Join([b.GetOr("")] + s[..k]);
    TwoCuts(id, u, w, s[k]);
    if |w| == |id| {
      if k == 0 {
        assert [b.GetOr("")] + s[..k] == [b.GetOr("")] + [];
        OnlyRedirect(q, s, u);
        assert false;
      } else {
        IdEndsInARedirect(id, u, b.GetOr(""), s);
      }
    }
  }

  lemma OnlyRedirect(q: seq<string>, s: seq<string>, u: string)
    requires multiset(s) == multiset(q) && |s| == 1 && s[0] == u
    ensures multiset(q) == multiset([u])
  {
    assert s == [u];
  }

  /**
   * An accepted registration shares its fingerprint with a different accepted one
   * exactly when it has two redirects, or a line break in its software id or in
   * its one redirect hides a second.
   */
  lemma FingerprintIsSharedExactly(a: Option<string>, r: seq<string>)
    requires Accepted(r)
    ensures HasTwin(a, r)
            <==> |r| >= 2 || IdHidesRedirect(a.GetOr(""), r[0]) || RedirectHidesRedirect(r[0])
  {
    hide IsLoopback;
    if |r| >= 2 {
      TwoRedirectsHaveATwin(a, r);
    } else {
      assert r == [r[0]];
      if IdHidesRedirect(a.GetOr(""), r[0]) || RedirectHidesRedirect(r[0]) {
        HiddenRedirectIsATwin(a, r[0]);
      } else if HasTwin(a, r) {
        var b: Option<string>, q: seq<string> :| IsTwin(a, r, b, q);
        TwinsHideRedirects(a, r[0], b, q);
      }
    }
  }

  /** Without line breaks, exactly the registrations with one redirect have a fingerprint of their own. */
  lemma OneRedirectIdentifiesExactly(a: Option<string>, r: seq<string>)
    requires Accepted(r) && AllNewlineFree(a, r)
    ensures HasTwin(a, r) <==> |r| >= 2
  {
    hide IsLoopback, HasTwin;
    FingerprintIsSharedExactly(a, r);
  }

  lemma {:induction false} BeforeStops(a: string, c: char, x: string)
    requires c !in a
    ensures Before(a + ([c] + x), c) == a && Before(a, c) == a
  {
    if a == "" {
      assert a + ([c] + x) == [c] + x;
    } else {
      BeforeStops(a[1..], c, x);
      assert (a + ([c] + x))[1..] == a[1..] + ([c] + x);
    }
  }

  lemma HostBeforeSlash(host: string, x: string)
    requires '/' !in host && ':' !in host
    ensures Before(Before(host + "/" + x, '/'), ':') == host
  {
    hide Before;
    BeforeStops(host, '/', x);
    BeforeStops(host, ':', "");
    assert host + (['/'] + x) == host + "/" + x;
  }

  lemma LocalhostIsLoopback(x: string)
    ensures IsLoopback("http://localhost/" + x)
  {
    var u := "http://localhost/" + x;
    assert '/' !in "localhost" && ':' !in "localhost";
    hide Before;
    HostBeforeSlash("localhost", x);
    assert u[..7] == "http://" && u[7..] == "localhost" + "/" + x;
  }

  lemma RedirectsMerge(id: string, u: string, v: string)
    requires AtMost(u, v)
    ensures FingerprintInput(Some(id), [u, v]) == FingerprintInput(Some(id + "\n" + u), [v])
    ensures FingerprintInput(Some(id), [u, v]) == FingerprintInput(Some(id), [u + "\n" + v])
  {
    hide FingerprintInput, AtMost;
    TwoRedirects(Some(id), u, v);
    OneRedirect(Some(id + "\n" + u), v);
    OneRedirect(Some(id), u + "\n" + v);
    Regroup(id, u, v);
  }

  lemma LocalRedirectsAreAccepted(x: string, y: string)
    ensures var u, v := "http://localhost/" + x, "http://localhost/" + y;
            Accepted([u, v]) && Accepted([v]) && Accepted([u + "\n" + v])
  {
    hide IsLoopback;
    var u, v := "http://localhost/" + x, "http://localhost/" + y;
    LocalhostIsLoopback(x);
    LocalhostIsLoopback(y);
    LocalhostIsLoopback(x + "\n" + v);
    assert "http://localhost/" + (x + "\n" + v) == u + "\n" + v;
  }

  /** Three accepted registrations, of which only one has no line break, with one fingerprint. */
  lemma LineBreakMergesFingerprints(id: string, x: string, y: string)
    requires AtMost("http://localhost/" + x, "http://localhost/" + y)
    ensures var u, v := "http://localhost/" + x, "http://localhost/" + y;
            && Accepted([u, v]) && Accepted([v]) && Accepted([u + "\n" + v])
            && FingerprintInput(Some(id), [u, v]) == FingerprintInput(Some(id + "\n" + u), [v])
            && FingerprintInput(Some(id), [u, v]) == FingerprintInput(Some(id), [u + "\n" + v])
  {
    hide Accepted, FingerprintInput, AtMost;
    LocalRedirectsAreAccepted(x, y);
    RedirectsMerge(id, "http://localhost/" + x, "http://localhost/" + y);
  }
}
