/** The inbox store of `inbox.py` as an object whose methods change its files. */
module InboxService {
  import opened Text
  import opened Times
  import opened InboxFormat
  import opened InboxRoundTrip
  import opened InboxMarks
  import opened InboxStore
  import opened InboxQueries

  datatype WriteResult = Written(message: Message) | Refused(why: Refusal)

  datatype ListResult = Listed(messages: seq<Message>) | BadLimit | ListBadUserId

  datatype MarkResult = Marked(count: nat) | Unreadable(why: Defect) | MarkBadUserId

  const MAX_ATTEMPTS := 99

  class Inbox {
    /** The `active` directories by recipient. */
    var boxes: map<string, Box>

    constructor ()
      ensures boxes == map[]
    {
      boxes := map[];
    }

    function BoxOf(user: string): Box
      reads this
    {
      if user in boxes then boxes[user] else map[]
    }

    /** Every stored message has the printer's form and a name that carries its time. */
    ghost predicate Valid()
      reads this
    {
      forall user :: user in boxes ==> Kept(boxes[user])
    }

    /**
     * The file goes under the first free candidate name, no other file of any
     * inbox changes, and a refusal changes nothing.
     */
    method WriteMessage(d: Draft, now: Utc) returns (r: WriteResult)
      requires Times.Valid(now)
      modifies this
      ensures Check(d).Some? ==> r == Refused(Check(d).value) && boxes == old(boxes)
      ensures Check(d) == None ==>
        var slug := SlugOf(d);
        var base := BaseId(d.fromUser, now, slug);
        match r
        case Refused(why) =>
          && why == TooManyCollisions && boxes == old(boxes)
          && forall i :: 0 <= i <= MAX_ATTEMPTS ==> FileName(CandidateId(base, i)) in old(BoxOf(d.toUser))
        case Written(m) =>
          exists n :: 0 <= n <= MAX_ATTEMPTS
            && (forall i :: 0 <= i < n ==> FileName(CandidateId(base, i)) in old(BoxOf(d.toUser)))
            && FileName(CandidateId(base, n)) !in old(BoxOf(d.toUser))
            && m == Message(HeaderOf(d, now, CandidateId(base, n)), None, d.body)
            && boxes == old(boxes)[d.toUser := Stored(old(BoxOf(d.toUser)), d, now, slug, n)]
      ensures old(Valid()) && r.Written? && HeaderBreakFree(r.message.header) ==> Valid()
    {
      EmptyIsKept();
      hide Check, Render, HeaderOf, HeaderBreakFree, Kept, BaseId, CandidateId, SlugOf;
      var refusal := Check(d);
      if refusal.Some? {
        return Refused(refusal.value);
      }
      var slug := SlugOf(d);
      var base := BaseId(d.fromUser, now, slug);
      var box := BoxOf(d.toUser);
      var attempt := 0;
      while FileName(CandidateId(base, attempt)) in box
        invariant 0 <= attempt <= MAX_ATTEMPTS
        invariant forall i :: 0 <= i < attempt ==> FileName(CandidateId(base, i)) in box
        invariant boxes == old(boxes)
        decreases MAX_ATTEMPTS - attempt
      {
        if attempt + 1 > MAX_ATTEMPTS {
          return Refused(TooManyCollisions);
        }
        attempt := attempt + 1;
      }
      var id := CandidateId(base, attempt);
      var header := HeaderOf(d, now, id);
      if HeaderBreakFree(header) && Kept(box) {
        WriteKeepsForm(box, d, now, slug, attempt);
      }
      boxes := boxes[d.toUser := box[FileName(id) := Render(header, d.body)]];
      r := Written(Message(header, None, d.body));
    }

    /** The newest matching messages, at most `limit`; `listing` is the sorted directory. */
    method ListMessages(user: string, q: Query, limit: int) returns (r: ListResult, ghost listing: seq<string>)
      ensures r == BadLimit <==> limit < 1 || limit > 200
      ensures r == ListBadUserId <==> 1 <= limit <= 200 && !ValidUserId(user)
      ensures Descending(listing) && (r.Listed? ==> forall x :: x in listing <==> x in BoxOf(user))
      ensures r.Listed? ==> r.messages == Take(Selected(BoxOf(user), listing, q), limit)
    {
      listing := [];
      if limit < 1 || limit > 200 {
        return BadLimit, listing;
      }
      if !ValidUserId(user) {
        return ListBadUserId, listing;
      }
      var box := BoxOf(user);
      var names := SortedReverse(box.Keys);
      listing := names;
      var messages := FirstMatches(box, names, q, limit);
      r := Listed(messages);
    }

    /** Counts and marks exactly the chosen messages of the one inbox. */
    method MarkRead(user: string, messageId: string, allBefore: bool, now: Utc) returns (r: MarkResult)
      modifies this
      ensures !ValidUserId(user) ==> r == MarkBadUserId && boxes == old(boxes)
      ensures ValidUserId(user) ==>
        var box := old(BoxOf(user));
        var target := FileName(messageId);
        if target !in box then r == Marked(0) && boxes == old(boxes)
        else
          match Read(box[target])
          case Malformed(why) => r == Unreadable(why) && boxes == old(boxes)
          case Parsed(m) =>
            var chosen := Chosen(box, target, allBefore, m.header.sentAt);
            r == Marked(|chosen|) && boxes == old(boxes)[user := MarkAll(box, chosen, Stamp(now))]
      ensures old(Valid()) ==> Valid()
    {
      hide MarkAll, Chosen, Kept;
      if !ValidUserId(user) {
        return MarkBadUserId;
      }
      var box := BoxOf(user);
      var target := FileName(messageId);
      if target !in box {
        return Marked(0);
      }
      var read := ReadMessage(box[target]);
      if read.Malformed? {
        return Unreadable(read.why);
      }
      var when, sentAt := Stamp(now), read.message.header.sentAt;
      var count: nat := 0;
      if allBefore {
        count := MarkBefore(user, sentAt, target, when);
      } else if read.message.readAt.None? {
        AtomicSetReadAt(user, target, when);
        count := 1;
        TargetAlone(box, target, sentAt, when);
      } else {
        TargetAlone(box, target, sentAt, when);
        assert boxes == boxes[user := box];
      }
      r := Marked(count);
      if old(Valid()) {
        MarkingKeepsForm(box, messageId, allBefore, now);
      }
    }

    /** `_atomic_set_read_at`: one file of one inbox is replaced. */
    method AtomicSetReadAt(user: string, name: string, when: string)
      requires user in boxes && name in boxes[user]
      modifies this
      ensures boxes == old(boxes)[user := old(boxes[user])[name := Touch(old(boxes[user][name]), when)]]
    {
      boxes := boxes[user := boxes[user][name := Touch(boxes[user][name], when)]];
    }

    /** One turn of that loop, `done` being the files marked so far. */
    method Visit(user: string, name: string, target: string, sentAt: string, when: string,
        ghost start: map<string, Box>, ghost done: set<string>)
      returns (due: bool)
      requires user in start && name in start[user] && name !in done
      requires boxes == start[user := MarkAll(start[user], done, when)]
      modifies this
      ensures due <==> name in Chosen(start[user], target, true, sentAt)
      ensures boxes == start[user := MarkAll(start[user], if due then done + {name} else done, when)]
    {
      ghost var marked := MarkAll(start[user], done, when);
      OneMoreMarked(start[user], done, name, when);
      due := IsDue(start[user], target, name, boxes[user][name], sentAt);
      if due {
        SetTwice(start, user, marked, marked[name := Touch(marked[name], when)]);
        AtomicSetReadAt(user, name, when);
      }
    }

    /** The loop over the directory, in whatever order it is listed. */
    method MarkBefore(user: string, sentAt: string, target: string, when: string) returns (count: nat)
      requires user in boxes
      modifies this
      ensures var chosen := Chosen(old(boxes[user]), target, true, sentAt);
        count == |chosen| && boxes == old(boxes)[user := MarkAll(old(boxes[user]), chosen, when)]
    {
      hide MarkAll, Chosen;
      ChosenAreFiles(boxes[user], target, sentAt);
      ghost var start := boxes;
      ghost var chosen := Chosen(start[user], target, true, sentAt);
      ghost var done: set<string> := {};
      var rest := boxes[user].Keys;
      count := 0;
      NothingMarked(start[user], when);
      while rest != {}
        invariant rest <= start[user].Keys && done !! rest && done <= chosen <= done + rest && count == |done|
        invariant boxes == start[user := MarkAll(start[user], done, when)]
      {
        var name :| name in rest;
        var due := Visit(user, name, target, sentAt, when, start, done);
        if due {
          count, done := count + 1, done + {name};
        }
        rest := rest - {name};
      }
      assert done == chosen;
    }
  }

  // ----- steps of the loops --------------------------------------------------------

  method MatchOne(box: Box, name: string, q: Query) returns (matches: bool, shown: Message)
    requires name in box
    ensures matches == Matches(box, name, q)
    ensures matches ==> Parsed(shown) == Read(box[name])
  {
    var read := ReadMessage(box[name]);
    shown := Message(Header("", "", None, "", "", "", None, "", ""), None, "");
    if read.Parsed? {
      shown := read.message;
    }
    matches := IsMd(name) && read.Parsed? && Wanted(shown, q);
  }

  /** The loop over the sorted directory, left once `limit` messages are found. */
  method FirstMatches(box: Box, names: seq<string>, q: Query, limit: nat) returns (messages: seq<Message>)
    requires limit > 0 && forall x :: x in names ==> x in box
    ensures messages == Take(Selected(box, names, q), limit)
  {
    messages := [];
    var i := 0;
    assert names[0..] == names;
    while i < |names| && |messages| < limit
      invariant 0 <= i <= |names| && |messages| <= limit
      invariant Selected(box, names, q) == messages + Selected(box, names[i..], q)
      decreases |names| - i
    {
      SelectedFrom(box, names, i, q);
      var matches, shown := MatchOne(box, names[i], q);
      if matches {
        Regrouped(messages, shown, Selected(box, names[i + 1..], q));
        messages := messages + [shown];
      }
      i := i + 1;
    }
    if |messages| < limit {
      assert names[i..] == [];
    }
  }

  lemma Regrouped(a: seq<Message>, m: Message, b: seq<Message>)
    ensures a + ([m] + b) == a + [m] + b
  {
  }

  method IsDue(ghost box: Box, ghost target: string, name: string, file: string, sentAt: string) returns (due: bool)
    requires name in box && file == box[name]
    ensures due <==> name in Chosen(box, target, true, sentAt)
  {
    var read := ReadMessage(file);
    due := IsMd(name) && read.Parsed? && read.message.readAt.None? && AtMost(read.message.header.sentAt, sentAt);
  }

  lemma SelectedFrom(box: Box, names: seq<string>, i: nat, q: Query)
    requires i < |names|
    ensures Selected(box, names[i..], q)
            == (if Matches(box, names[i], q) then [Read(box[names[i]]).message] else [])
               + Selected(box, names[i + 1..], q)
  {
    assert names[i..][0] == names[i] && names[i..][1..] == names[i + 1..];
  }

  lemma EmptyIsKept()
    ensures Kept(map[])
  {
  }

  lemma ChosenAreFiles(box: Box, target: string, sentAt: string)
    ensures Chosen(box, target, true, sentAt) <= box.Keys
  {
  }

  lemma SetTwice(boxes: map<string, Box>, user: string, a: Box, b: Box)
    ensures boxes[user := a][user := b] == boxes[user := b]
  {
  }

  lemma NothingMarked(box: Box, when: string)
    ensures MarkAll(box, {}, when) == box
  {
  }

  lemma OneMoreMarked(box: Box, done: set<string>, name: string, when: string)
    requires name in box && name !in done
    ensures name in MarkAll(box, done, when) && MarkAll(box, done, when)[name] == box[name]
    ensures MarkAll(box, done + {name}, when) == MarkAll(box, done, when)[name := Touch(box[name], when)]
  {
  }

  lemma TargetAlone(box: Box, target: string, sentAt: string, when: string)
    requires target in box
    ensures Chosen(box, target, false, sentAt) == if Unread(box[target]) then {target} else {}
    ensures MarkAll(box, {target}, when) == box[target := Touch(box[target], when)]
    ensures MarkAll(box, {}, when) == box
  {
  }

  lemma FileNameIsMd(id: string)
    ensures IsMd(FileName(id))
  {
    assert FileName(id)[|id|..] == ".md";
  }

  lemma MarkingKeepsForm(box: Box, id: string, allBefore: bool, now: Utc)
    requires Kept(box) && FileName(id) in box && Read(box[FileName(id)]).Parsed?
    ensures var sentAt := Read(box[FileName(id)]).message.header.sentAt;
      Kept(MarkAll(box, Chosen(box, FileName(id), allBefore, sentAt), Stamp(now)))
  {
    FileNameIsMd(id);
    StampIsPlain(now);
    MarkingChangesExactlyReadAt(box, FileName(id), allBefore, Stamp(now));
  }
}
