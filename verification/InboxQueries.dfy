/** Listing an inbox and marking its messages as read (`inbox.py`). */
module InboxQueries {
  import opened Text
  import opened Times
  import opened InboxFormat
  import opened InboxRoundTrip
  import opened InboxMarks
  import opened InboxStore

  predicate IsMd(name: string)
  {
    |name| >= 3 && name[|name| - 3..] == ".md"
  }

  // ----- the form every stored message has ---------------------------------------

  /** The name starts with the compact form of the time in the message. */
  ghost predicate Dated(name: string, sentAt: string)
  {
    exists t: Utc, rest: string :: Valid(t) && name == Fields(t, "", "", "Z" + rest) && sentAt == Stamp(t)
  }

  ghost predicate Kept(box: Box)
  {
    forall name :: name in box && IsMd(name) ==>
      Printed(box[name]) && (Read(box[name]).Parsed? ==> Dated(name, Read(box[name]).message.header.sentAt))
  }

  lemma FieldsThen(t: Utc, dash: string, colon: string, a: string, b: string)
    ensures Fields(t, dash, colon, a) + b == Fields(t, dash, colon, a + b)
  {
    var x5 := Pad(t.second, 2) + a;
    var x4 := Pad(t.minute, 2) + (colon + x5);
    var x3 := Pad(t.hour, 2) + (colon + x4);
    var x2 := Pad(t.day, 2) + ("T" + x3);
    var x1 := Pad(t.month, 2) + (dash + x2);
    Regroup3(Pad(t.second, 2), "", a, b);
    assert Pad(t.second, 2) + ("" + (a + b)) == Pad(t.second, 2) + (a + b) && Pad(t.second, 2) + ("" + a) == x5;
    Regroup3(Pad(t.minute, 2), colon, x5, b);
    Regroup3(Pad(t.hour, 2), colon, x4, b);
    Regroup3(Pad(t.day, 2), "T", x3, b);
    Regroup3(Pad(t.month, 2), dash, x2, b);
    Regroup3(Pad(t.year, 4), dash, x1, b);
  }

  lemma Regroup3(p: string, sep: string, x: string, b: string)
    ensures p + (sep + x) + b == p + (sep + (x + b))
  {
  }

  lemma StoredNameIsDated(fromUser: string, now: Utc, slug: string, n: nat)
    requires Valid(now)
    ensures var name := FileName(CandidateId(BaseId(fromUser, now, slug), n));
      IsMd(name) && Dated(name, Stamp(now))
  {
    CompactStamp(now);
    var rest := "-" + (Cut(fromUser, 8) + ("-" + slug)) + (if n == 0 then "" else "-" + Dec(n)) + ".md";
    var name := FileName(CandidateId(BaseId(fromUser, now, slug), n));
    assert name == Compact(Stamp(now)) + rest;
    FieldsThen(now, "", "", "Z", rest);
    assert name[|name| - 3..] == ".md";
  }

  lemma SentAtIsRead(h: Header, body: string, now: Utc)
    requires HeaderBreakFree(h) && h.sentAt == Stamp(now) && Read(Render(h, body)).Parsed?
    ensures Read(Render(h, body)).message.header.sentAt == Stamp(now)
  {
    NullReturnsNone();
    EntriesAreClean(h, "null");
    FileIsCutAtItsFences(Entries(h, "null"), RStrip(body) + "\n");
    FieldsOfHeader(h, "null", FieldsOf(LinesOf(Entries(h, "null"))));
    StampIsPlain(now);
    ValueReturnsExactly(Stamp(now));
  }

  lemma RenderIsPrinted(h: Header, body: string)
    requires HeaderBreakFree(h)
    ensures Printed(Render(h, body))
  {
    NullReturnsNone();
    assert Render(h, body) == FileText(Entries(h, "null"), RStrip(body) + "\n");
  }

  /** A write keeps the form when no value it prints has a line break. */
  lemma WriteKeepsForm(box: Box, d: Draft, now: Utc, slug: string, n: nat)
    requires Kept(box) && Valid(now)
    requires HeaderBreakFree(HeaderOf(d, now, CandidateId(BaseId(d.fromUser, now, slug), n)))
    ensures Kept(Stored(box, d, now, slug, n))
  {
    hide Read, Render, BaseId, CandidateId, HeaderBreakFree, Dated, Printed, IsMd;
    var h := HeaderOf(d, now, CandidateId(BaseId(d.fromUser, now, slug), n));
    RenderIsPrinted(h, d.body);
    StoredNameIsDated(d.fromUser, now, slug, n);
    if Read(Render(h, d.body)).Parsed? {
      SentAtIsRead(h, d.body, now);
    }
  }

  // ----- listing -----------------------------------------------------------------

  datatype Query = Query(unreadOnly: bool, fromUser: Option<string>, since: Option<string>)

  predicate Wanted(m: Message, q: Query)
  {
    && !(q.unreadOnly && m.readAt.Some?)
    && (Present(q.fromUser) ==> m.header.fromUser == q.fromUser.value)
    && (Present(q.since) ==> Below(q.since.value, m.header.sentAt))
  }

  predicate Matches(box: Box, name: string, q: Query)
  {
    name in box && IsMd(name) && Read(box[name]).Parsed? && Wanted(Read(box[name]).message, q)
  }

  /** The matching messages in the order of the listing. */
  function Selected(box: Box, listing: seq<string>, q: Query): seq<Message>
  {
    if listing == [] then []
    else
      (if Matches(box, listing[0], q) then [Read(box[listing[0]]).message] else [])
      + Selected(box, listing[1..], q)
  }

  predicate Descending(listing: seq<string>)
  {
    forall i, j :: 0 <= i < j < |listing| ==> Below(listing[j], listing[i])
  }

  function Place(name: string, listing: seq<string>): seq<string>
  {
    if listing == [] || Below(listing[0], name) then [name] + listing else [listing[0]] + Place(name, listing[1..])
  }

  lemma {:induction false} PlaceKeepsDescending(name: string, listing: seq<string>)
    requires Descending(listing) && name !in listing
    ensures Descending(Place(name, listing))
    ensures forall x :: x in Place(name, listing) <==> x == name || x in listing
  {
    if listing != [] {
      BelowIsStrictTotal(listing[0], name);
      if Below(listing[0], name) {
        forall j | 0 <= j < |listing| ensures Below(listing[j], name) {
          if j > 0 {
            BelowTransitive(listing[j], listing[0], name);
          }
        }
      } else {
        var rest := Place(name, listing[1..]);
        PlaceKeepsDescending(name, listing[1..]);
        forall j | 0 <= j < |rest| ensures Below(rest[j], listing[0]) {
          assert rest[j] in rest;
        }
      }
    }
  }

  /** `sorted(active.iterdir(), reverse=True)`, from whatever order the directory gives. */
  method SortedReverse(names: set<string>) returns (listing: seq<string>)
    ensures Descending(listing) && forall x :: x in listing <==> x in names
  {
    listing := [];
    var rest := names;
    while rest != {}
      invariant rest <= names && Descending(listing)
      invariant forall x :: x in listing <==> x in names && x !in rest
    {
      var name :| name in rest;
      PlaceKeepsDescending(name, listing);
      listing := Place(name, listing);
      rest := rest - {name};
    }
  }

  lemma CompactOrderIsStampOrder(s: Utc, t: Utc, x: string, y: string)
    requires Valid(s) && Valid(t) && Below(Fields(t, "", "", x), Fields(s, "", "", y))
    ensures !Below(Stamp(s), Stamp(t))
  {
    FieldStringsOrder(t, s, "", "", x, y);
    FieldStringsOrder(s, t, "-", ":", "Z", "Z");
    BelowIsStrictTotal("Z", "Z");
  }

  /** Names later in the listing carry stamps that are not later in time. */
  lemma NameOrderIsStampOrder(a: string, b: string, sa: string, sb: string)
    requires Below(b, a) && Dated(a, sa) && Dated(b, sb)
    ensures !Below(sa, sb)
  {
    var s: Utc, x: string :| Valid(s) && a == Fields(s, "", "", "Z" + x) && sa == Stamp(s);
    var t: Utc, y: string :| Valid(t) && b == Fields(t, "", "", "Z" + y) && sb == Stamp(t);
    CompactOrderIsStampOrder(s, t, "Z" + y, "Z" + x);
  }

  predicate NewestFirst(ms: seq<Message>)
  {
    forall i, j :: 0 <= i < j < |ms| ==> !Below(ms[i].header.sentAt, ms[j].header.sentAt)
  }

  lemma {:induction false} SelectedIsTheMatches(box: Box, listing: seq<string>, q: Query)
    ensures forall m :: m in Selected(box, listing, q) <==>
      exists name :: name in listing && Matches(box, name, q) && Read(box[name]).message == m
  {
    if listing != [] {
      SelectedIsTheMatches(box, listing[1..], q);
      assert forall name :: name in listing <==> name == listing[0] || name in listing[1..];
    }
  }

  lemma {:induction false} SelectedIsNewestFirst(box: Box, listing: seq<string>, q: Query)
    requires Kept(box) && Descending(listing)
    ensures NewestFirst(Selected(box, listing, q))
  {
    hide Dated, Wanted, Printed;
    if listing != [] {
      SelectedIsNewestFirst(box, listing[1..], q);
      SelectedIsTheMatches(box, listing[1..], q);
      var rest := Selected(box, listing[1..], q);
      if Matches(box, listing[0], q) {
        var first := Read(box[listing[0]]).message;
        forall j | 0 <= j < |rest| ensures !Below(first.header.sentAt, rest[j].header.sentAt) {
          assert rest[j] in rest;
          var name :| name in listing[1..] && Matches(box, name, q) && Read(box[name]).message == rest[j];
          NameOrderIsStampOrder(listing[0], name, first.header.sentAt, rest[j].header.sentAt);
        }
      }
    }
  }

  /** At most `limit` messages, from the front. */
  function Take(ms: seq<Message>, limit: nat): seq<Message>
  {
    if |ms| <= limit then ms else ms[..limit]
  }

  lemma LeftOutIsNotNewer(all: seq<Message>, limit: nat, out: Message)
    requires NewestFirst(all) && out in all && out !in Take(all, limit)
    ensures |Take(all, limit)| == limit
    ensures forall m :: m in Take(all, limit) ==> !Below(m.header.sentAt, out.header.sentAt)
  {
    var shown := Take(all, limit);
    var j :| 0 <= j < |all| && all[j] == out;
    assert forall i :: 0 <= i < |shown| ==> shown[i] == all[i];
    assert j >= |shown|;
  }

  /**
   * A listing is newest first, shows only matching messages, and leaves one out
   * only when it is full and shows nothing older than the one left out.
   */
  lemma ListingIsTheNewestMatches(box: Box, listing: seq<string>, q: Query, limit: nat)
    requires Kept(box) && Descending(listing) && forall x :: x in listing <==> x in box
    ensures var shown := Take(Selected(box, listing, q), limit);
      && NewestFirst(shown)
      && (forall m :: m in shown ==> exists name :: Matches(box, name, q) && Read(box[name]).message == m)
      && forall name :: Matches(box, name, q) && Read(box[name]).message !in shown ==>
           |shown| == limit && forall m :: m in shown ==>
             !Below(m.header.sentAt, Read(box[name]).message.header.sentAt)
  {
    var all := Selected(box, listing, q);
    var shown := Take(all, limit);
    SelectedIsNewestFirst(box, listing, q);
    SelectedIsTheMatches(box, listing, q);
    forall m | m in shown
      ensures exists name :: Matches(box, name, q) && Read(box[name]).message == m
    {
      assert m in all;
    }
    forall name | Matches(box, name, q) && Read(box[name]).message !in shown
      ensures |shown| == limit
      ensures forall m :: m in shown ==> !Below(m.header.sentAt, Read(box[name]).message.header.sentAt)
    {
      LeftOutIsNotNewer(all, limit, Read(box[name]).message);
    }
  }

  // ----- marking as read -----------------------------------------------------------

  predicate Unread(file: string)
  {
    Read(file).Parsed? && Read(file).message.readAt.None?
  }

  predicate Picked(box: Box, name: string, target: string, allBefore: bool, sentAt: string)
    requires name in box
  {
    if allBefore then IsMd(name) && Unread(box[name]) && AtMost(Read(box[name]).message.header.sentAt, sentAt)
    else name == target && Unread(box[name])
  }

  /** The files a call marks: the target alone, or every unread message sent no later than it. */
  function Chosen(box: Box, target: string, allBefore: bool, sentAt: string): set<string>
  {
    set name | name in box && Picked(box, name, target, allBefore, sentAt)
  }

  function MarkAll(box: Box, chosen: set<string>, when: string): Box
  {
    map name | name in box :: if name in chosen then Touch(box[name], when) else box[name]
  }

  /**
   * Marking sets `read_at` on the chosen messages, changes no other file and no
   * other field, keeps the form, and leaves nothing for a second call.
   */
  lemma MarkingChangesExactlyReadAt(box: Box, target: string, allBefore: bool, when: string)
    requires Kept(box) && IsStamp(when) && IsMd(target) && target in box && Read(box[target]).Parsed?
    ensures var sentAt := Read(box[target]).message.header.sentAt;
      var chosen := Chosen(box, target, allBefore, sentAt);
      var after := MarkAll(box, chosen, when);
      && after.Keys == box.Keys && Kept(after)
      && (forall name :: name in box && name !in chosen ==> after[name] == box[name])
      && (forall name :: name in chosen ==> Read(after[name]) == WithReadAt(Read(box[name]), when))
      && Read(after[target]).Parsed? && Read(after[target]).message.header.sentAt == sentAt
      && Chosen(after, target, allBefore, sentAt) == {}
  {
    var sentAt := Read(box[target]).message.header.sentAt;
    var chosen := Chosen(box, target, allBefore, sentAt);
    var after := MarkAll(box, chosen, when);
    forall name | name in chosen
      ensures Printed(after[name]) && Read(after[name]) == WithReadAt(Read(box[name]), when)
    {
      TouchChangesOnlyReadAt(box[name], when);
    }
    forall name | name in after ensures !Picked(after, name, target, allBefore, sentAt) {
      assert name in chosen || after[name] == box[name];
    }
  }
}
