/**
 * What the inbox shows, refuses, names and marks, on the fields of its messages.
 */
module InboxEffects {
  import opened Text
  import opened Times
  import opened InboxFormat
  import opened InboxRoundTrip
  import opened InboxMarks
  import opened InboxStore
  import opened InboxQueries

  predicate IsMarkdown(name: string)
  {
    |name| >= 3 && name[|name| - 3..] == ".md"
  }

  // ----- reading -----------------------------------------------------------------

  predicate Given(f: Dictionary, key: string)
  {
    key in f && f[key].Some? && f[key].value != ""
  }

  /** A message needs five fields; without a priority or a type it is normal chat. */
  lemma FieldsExactly(f: Dictionary, body: string)
    ensures FromFields(f, body).Parsed? <==>
      Given(f, "id") && Given(f, "from_user") && Given(f, "to_user") && Given(f, "subject") && Given(f, "sent_at")
    ensures FromFields(f, body).Parsed? ==>
      var m := FromFields(f, body).message;
      var h := m.header;
      && h.id == f["id"].value && h.fromUser == f["from_user"].value && h.toUser == f["to_user"].value
      && h.subject == f["subject"].value && h.sentAt == f["sent_at"].value
      && h.priority == (if Given(f, "priority") then f["priority"].value else "normal")
      && h.kind == (if Given(f, "type") then f["type"].value else "chat")
      && h.fromEmail == (if "from_email" in f then f["from_email"] else None)
      && h.inReplyTo == (if "in_reply_to" in f then f["in_reply_to"] else None)
      && m.readAt == (if "read_at" in f then f["read_at"] else None) && m.body == body
  {
    MissingExactly(f);
    hide FirstMissing;
  }

  /** The first missing field is the one complained about. */
  lemma MissingExactly(f: Dictionary)
    ensures FirstMissing(f, REQUIRED) ==
      if !Given(f, "id") then Some("id") else if !Given(f, "from_user") then Some("from_user")
      else if !Given(f, "to_user") then Some("to_user") else if !Given(f, "subject") then Some("subject")
      else if !Given(f, "sent_at") then Some("sent_at") else None
  {
    var names := REQUIRED;
    MissingFirst(f, names);
    assert names[1..] == ["from_user", "to_user", "subject", "sent_at"];
    MissingFirst(f, names[1..]);
    assert names[1..][1..] == ["to_user", "subject", "sent_at"];
    MissingFirst(f, names[1..][1..]);
    assert names[1..][1..][1..] == ["subject", "sent_at"];
    MissingFirst(f, names[1..][1..][1..]);
    assert names[1..][1..][1..][1..] == ["sent_at"];
    MissingFirst(f, names[1..][1..][1..][1..]);
    assert FirstMissing(f, []) == None && names[1..][1..][1..][1..][1..] == [];
    hide FirstMissing, Given;
  }

  lemma MissingFirst(f: Dictionary, names: seq<string>)
    requires names != []
    ensures FirstMissing(f, names) == if Given(f, names[0]) then FirstMissing(f, names[1..]) else Some(names[0])
  {
  }

  /** The ten characters that end a line. */
  lemma LineBreaksExactly(c: char)
    ensures IsLineBreak(c) <==>
      c in {'\n', '\U{b}', '\U{c}', '\r', '\U{1c}', '\U{1d}', '\U{1e}', '\U{85}', '\U{2028}', '\U{2029}'}
  {
  }

  /** Reading makes one newline of `\r\n` and of a `\r` alone, and keeps everything else. */
  lemma BreaksAreUnified(a: string, b: string)
    requires '\r' !in a
    ensures Universal(a + ("\r\n" + b)) == a + ("\n" + Universal(b))
    ensures b == "" || b[0] != '\n' ==> Universal(a + ("\r" + b)) == a + ("\n" + Universal(b))
    ensures Universal(a) == a
  {
    BreakIsUnified(b);
    hide Universal;
    UniversalKeeps(a, "\r\n" + b);
    UniversalKeeps(a, "\r" + b);
    UniversalKeeps(a, "");
    assert a + "" == a;
  }

  lemma BreakIsUnified(b: string)
    ensures Universal("\r\n" + b) == "\n" + Universal(b)
    ensures b == "" || b[0] != '\n' ==> Universal("\r" + b) == "\n" + Universal(b)
    ensures Universal("") == ""
  {
    var s, t := "\r\n" + b, "\r" + b;
    assert "\r\n" <= s && s[2..] == b && s[0] == '\r';
    assert t[1..] == b && t[0] == '\r' && ("\r\n" <= t ==> t[1] == '\n');
  }

  lemma {:induction false} UniversalKeepsPrefix(file: string, p: string)
    requires '\r' !in p && '\n' !in p
    ensures p <= Universal(file) <==> p <= file
  {
    if p != "" && file != "" {
      if file[0] == '\r' {
        assert Universal(file)[0] == '\n';
      } else {
        UniversalKeepsPrefix(file[1..], p[1..]);
        assert Universal(file)[1..] == Universal(file[1..]);
        PrefixByHead(p, file);
        PrefixByHead(p, Universal(file));
      }
    }
  }

  lemma PrefixByHead(p: string, s: string)
    requires p != "" && s != ""
    ensures p <= s <==> p[0] == s[0] && p[1..] <= s[1..]
  {
    assert p == [p[0]] + p[1..] && s == [s[0]] + s[1..];
    assert p <= s ==> p[1..] == s[1..][..|p| - 1];
  }

  /** A file that does not begin with the delimiter is refused as such, and only that. */
  lemma FrontmatterExactly(file: string)
    ensures Read(file) == Malformed(NoFrontmatter) <==> !("---" <= file)
  {
    UniversalKeepsPrefix(file, "---");
    hide Universal, FenceAt, FieldsOf, DropNewlines, FirstMissing, SplitLines;
  }

  predicate YamlSpecial(c: char)
  {
    || c == '"' || c == ':' || c == '\n' || c == '#' || c == '&' || c == '*' || c == '!' || c == '[' || c == ']'
    || c == '{' || c == '}' || c == '|' || c == '>' || c == '%' || c == '@' || c == '`'
  }

  /** A value stands in quotes exactly when it has a character YAML would read, or is a word it would. */
  lemma QuotedExactly(s: string)
    ensures var printed := YamlValue(Some(s));
      if (exists i :: 0 <= i < |s| && YamlSpecial(s[i]))
         || Lower(s) in {"true", "false", "null", "yes", "no", "~"}
      then |printed| >= |s| + 2 && printed[0] == '"' && printed[|printed| - 1] == '"' else printed == s
    ensures YamlValue(None) == "null"
  {
    assert forall i :: 0 <= i < |s| ==> (YamlSpecial(s[i]) <==> Special(s[i]));
    EscapeOnlyAdds(s);
    hide EscapeQuotes, EscapeBackslashes, Lower, YamlSpecial, Special;
  }

  lemma EscapeOnlyAdds(s: string)
    ensures |EscapeQuotes(EscapeBackslashes(s))| >= |s|
  {
    BackslashesOnlyAdd(s);
    QuotesOnlyAdd(EscapeBackslashes(s));
  }

  lemma {:induction false} BackslashesOnlyAdd(s: string)
    ensures |EscapeBackslashes(s)| >= |s|
  {
    if s != "" {
      BackslashesOnlyAdd(s[1..]);
    }
  }

  lemma {:induction false} QuotesOnlyAdd(s: string)
    ensures |EscapeQuotes(s)| >= |s|
  {
    if s != "" {
      QuotesOnlyAdd(s[1..]);
    }
  }

  // ----- listing -----------------------------------------------------------------

  /**
   * Every message listed is stored, unread when only unread ones are asked for,
   * from the sender asked for, and later than the time asked for.
   */
  lemma ListedAsAsked(box: Box, listing: seq<string>, q: Query, limit: nat)
    requires forall x :: x in listing ==> x in box
    ensures var shown := Take(Selected(box, listing, q), limit);
      |shown| <= limit
      && forall m :: m in shown ==>
        && (q.unreadOnly ==> m.readAt == None)
        && (q.fromUser.Some? && q.fromUser.value != "" ==> m.header.fromUser == q.fromUser.value)
        && (q.since.Some? && q.since.value != "" ==> Below(q.since.value, m.header.sentAt))
        && exists name :: name in listing && IsMarkdown(name) && Read(box[name]) == Parsed(m)
  {
    hide Read;
    var shown := Take(Selected(box, listing, q), limit);
    SelectedIsTheMatches(box, listing, q);
    forall m | m in shown
      ensures q.unreadOnly ==> m.readAt == None
      ensures q.fromUser.Some? && q.fromUser.value != "" ==> m.header.fromUser == q.fromUser.value
      ensures q.since.Some? && q.since.value != "" ==> Below(q.since.value, m.header.sentAt)
      ensures exists name :: name in listing && IsMarkdown(name) && Read(box[name]) == Parsed(m)
    {
      assert m in Selected(box, listing, q);
      var name :| name in listing && Matches(box, name, q) && Read(box[name]).message == m;
      assert Read(box[name]) == Parsed(m);
    }
  }

  /** And every stored message that is as asked is listed, unless the listing is full. */
  lemma AsAskedIsListed(box: Box, listing: seq<string>, q: Query, limit: nat, name: string, m: Message)
    requires name in listing && name in box && IsMarkdown(name) && Read(box[name]) == Parsed(m)
    requires q.unreadOnly ==> m.readAt == None
    requires q.fromUser.Some? && q.fromUser.value != "" ==> m.header.fromUser == q.fromUser.value
    requires q.since.Some? && q.since.value != "" ==> Below(q.since.value, m.header.sentAt)
    ensures var shown := Take(Selected(box, listing, q), limit); m in shown || |shown| == limit
  {
    hide Read;
    SelectedIsTheMatches(box, listing, q);
    assert Matches(box, name, q);
    assert m in Selected(box, listing, q);
  }

  // ----- marking -----------------------------------------------------------------

  /**
   * Marking one message reads that one; marking all before it reads exactly the
   * unread ones not sent after it. What was read before keeps its time.
   */
  lemma MarkedExactly(box: Box, target: string, t: Message, allBefore: bool, when: string, name: string, m: Message)
    requires Kept(box) && IsStamp(when) && target in box && IsMarkdown(target) && Read(box[target]) == Parsed(t)
    requires name in box && IsMarkdown(name) && Read(box[name]) == Parsed(m)
    ensures var after := MarkAll(box, Chosen(box, target, allBefore, t.header.sentAt), when);
      && name in after && Read(after[name]).Parsed?
      && Read(after[name]).message.header == m.header && Read(after[name]).message.body == m.body
      && Read(after[name]).message.readAt ==
           if m.readAt == None
              && (if allBefore then !Below(t.header.sentAt, m.header.sentAt) else name == target)
           then Some(when) else m.readAt
  {
    hide Read, Kept, Touch, Below, IsStamp;
    MarkingChangesExactlyReadAt(box, target, allBefore, when);
    BelowIsStrictTotal(t.header.sentAt, m.header.sentAt);
    var chosen := Chosen(box, target, allBefore, t.header.sentAt);
    assert name in chosen <==> Picked(box, name, target, allBefore, t.header.sentAt);
  }

  /** A file without a `read_at` line is left as it is, byte for byte. */
  lemma NoLineNoMark(file: string, when: string)
    requires NoReadAtLine(Universal(file))
    ensures Touch(file, when) == file
  {
    NothingIsSet(Universal(file), when);
  }

  ghost predicate NoReadAtLine(text: string)
  {
    forall i :: 0 <= i <= |text| && (i == 0 || text[i - 1] == '\n') ==> !("read_at:" <= text[i..])
  }

  lemma FirstLineUnmarked(text: string)
    requires NoReadAtLine(text)
    ensures !IsReadAtLine(text[..LineEnd(text)])
  {
    assert text[0..] == text && !("read_at:" <= text);
    hide LineEnd, NoReadAtLine;
  }

  lemma RestUnmarked(text: string, n: nat)
    requires NoReadAtLine(text) && n < |text| && text[n] == '\n'
    ensures NoReadAtLine(text[n + 1..])
  {
    var rest := text[n + 1..];
    forall i | 0 <= i <= |rest| && (i == 0 || rest[i - 1] == '\n') ensures !("read_at:" <= rest[i..]) {
      assert rest[i..] == text[n + 1 + i..];
    }
  }

  lemma {:induction false} NothingIsSet(text: string, when: string)
    requires NoReadAtLine(text)
    ensures SetReadAt(text, when) == text
    decreases |text|
  {
    hide LineEnd, NoReadAtLine, IsReadAtLine;
    var n := LineEnd(text);
    FirstLineUnmarked(text);
    if n < |text| {
      RestUnmarked(text, n);
      NothingIsSet(text[n + 1..], when);
      FirstLineIsSkipped(text, when);
      assert text[..n + 1] + text[n + 1..] == text;
    }
  }

  /** Lines, each with its newline. */
  function Ended(lines: seq<string>): string
  {
    if lines == [] then "" else lines[0] + ("\n" + Ended(lines[1..]))
  }

  ghost predicate Unmarked(lines: seq<string>)
  {
    forall i :: 0 <= i < |lines| ==> '\n' !in lines[i] && !("read_at:" <= lines[i])
  }

  lemma EndedByHead(line: string, more: string, x: string)
    ensures line + ("\n" + more) + x == line + ("\n" + (more + x))
  {
  }

  lemma {:induction false} LinesAreSkipped(before: seq<string>, x: string, when: string)
    requires Unmarked(before)
    ensures SetReadAt(Ended(before) + x, when) == Ended(before) + SetReadAt(x, when)
  {
    if before == [] {
      assert Ended(before) + x == x;
    } else {
      var more := Ended(before[1..]);
      assert '\n' !in before[0] && !IsReadAtLine(before[0]);
      hide SetReadAt, IsReadAtLine;
      LinesAreSkipped(before[1..], x, when);
      EndedByHead(before[0], more, x);
      LineIsSkipped(before[0], more + x, when);
      EndedByHead(before[0], more, SetReadAt(x, when));
    }
  }

  /** The first line that begins with `read_at:` gets the time, whatever it said, and the rest stays. */
  lemma FirstSuchLineIsSet(before: seq<string>, said: string, rest: string, when: string)
    requires Unmarked(before) && '\n' !in said && (rest == "" || rest[0] == '\n')
    ensures SetReadAt(Ended(before) + ("read_at:" + said + rest), when)
            == Ended(before) + ("read_at: " + (when + rest))
  {
    var line := "read_at:" + said;
    assert "read_at:" <= line && '\n' !in line && IsReadAtLine(line);
    hide SetReadAt, Unmarked;
    LineIsReplaced(line, rest, when);
    LinesAreSkipped(before, line + rest, when);
  }

  // ----- writing -----------------------------------------------------------------

  /** A draft is accepted exactly when it names both users, the recipient no path, and has a priority and some text. */
  lemma AcceptedExactly(d: Draft)
    ensures Check(d) == None <==>
      && d.fromUser != "" && d.toUser != ""
      && (d.priority == "low" || d.priority == "normal" || d.priority == "high")
      && (exists i :: 0 <= i < |d.body| && !IsSpace(d.body[i]))
      && (forall i :: 0 <= i < |d.toUser| ==> d.toUser[i] != '/')
      && !(exists i :: 0 <= i < |d.toUser| - 1 && d.toUser[i] == '.' && d.toUser[i + 1] == '.')
  {
    BlankExactly(d.body);
  }

  /** Which refusal: the first of the four checks that fails. */
  lemma RefusedExactly(d: Draft)
    ensures Check(d) == Some(NoUsers) <==> d.fromUser == "" || d.toUser == ""
    ensures Check(d) == Some(BadPriority) <==>
      d.fromUser != "" && d.toUser != "" && d.priority != "low" && d.priority != "normal" && d.priority != "high"
    ensures Check(d) == Some(EmptyBody) ==> forall i :: 0 <= i < |d.body| ==> IsSpace(d.body[i])
    ensures Check(d) == Some(BadUserId) ==> !(forall i :: 0 <= i < |d.body| ==> IsSpace(d.body[i]))
    ensures Check(d) != Some(TooManyCollisions)
  {
    BlankExactly(d.body);
  }

  /** A subject is kept without its outer space; one longer than eighty is cut there, one that is blank is replaced. */
  lemma GivenSubject(d: Draft, subject: string)
    requires d.subject == Some(subject) && subject != ""
    ensures var s := Strip(subject);
      if s == "" then EffectiveSubject(d) == "(no subject)"
      else if |s| <= 80 then EffectiveSubject(d) == s
      else EffectiveSubject(d) <= s[..80]
           && forall i :: |EffectiveSubject(d)| <= i < 80 ==> IsSpace(s[i])
  {
    var s := Strip(subject);
    if |s| > 80 {
      RStripDropsSpaces(s[..80]);
      RStripLeavesSpaces(s[..80]);
    }
  }

  lemma {:induction false} RStripLeavesSpaces(s: string)
    ensures forall i :: |RStrip(s)| <= i < |s| ==> IsSpace(s[i])
  {
    if s != "" && IsSpace(s[|s| - 1]) {
      RStripLeavesSpaces(s[..|s| - 1]);
    }
  }

  predicate Leader(c: char)
  {
    c == '#' || c == '>' || c == '*' || c == '-'
  }

  /** `marks` and the space after them are what markdown puts before the text. */
  predicate Led(marks: string, gap: string, text: string)
  {
    && (forall i :: 0 <= i < |marks| ==> Leader(marks[i])) && (forall i :: 0 <= i < |gap| ==> IsSpace(gap[i]))
    && (marks == "" ==> gap == "") && text != "" && Trimmed(text) && (gap == "" ==> !Leader(text[0]))
  }

  /** Without a subject the first line that is not blank gives it, without the marks in front and the space around. */
  lemma SubjectFromBody(d: Draft, lines: seq<string>, n: nat, marks: string, gap: string, text: string)
    requires d.subject == None || d.subject == Some("")
    requires SplitLines(d.body) == lines && n < |lines|
    requires forall i :: 0 <= i < n ==> Strip(lines[i]) == ""
    requires Strip(lines[n]) == marks + gap + text && Led(marks, gap, text) && |text| <= 80
    ensures EffectiveSubject(d) == text
  {
    FirstTextSkipsBlanks(lines, n);
    LeadersGo(marks, gap, text);
    StripTrims(text);
    hide Strip, SplitLines, FirstText, StripLeaders;
    assert DeriveSubject(d.body) == text;
  }

  /** With nothing but blank lines there is no subject. */
  lemma NoSubject(d: Draft, lines: seq<string>)
    requires d.subject == None || d.subject == Some("")
    requires SplitLines(d.body) == lines && forall i :: 0 <= i < |lines| ==> Strip(lines[i]) == ""
    ensures EffectiveSubject(d) == "(no subject)"
  {
    NoText(lines);
    assert DropLeaders("") == "" && Strip("") == "";
    hide Strip, SplitLines, FirstText;
  }

  lemma {:induction false} NoText(lines: seq<string>)
    requires forall i :: 0 <= i < |lines| ==> Strip(lines[i]) == ""
    ensures FirstText(lines) == ""
  {
    if lines != [] {
      NoText(lines[1..]);
    }
    hide Strip;
  }

  lemma {:induction false} FirstTextSkipsBlanks(lines: seq<string>, n: nat)
    requires n < |lines| && Strip(lines[n]) != "" && forall i :: 0 <= i < n ==> Strip(lines[i]) == ""
    ensures FirstText(lines) == Strip(lines[n])
  {
    hide Strip;
    if n > 0 {
      FirstTextSkipsBlanks(lines[1..], n - 1);
    }
  }

  lemma {:induction false} DropLeadersThen(marks: string, rest: string)
    requires (forall i :: 0 <= i < |marks| ==> Leader(marks[i])) && (rest != "" ==> !Leader(rest[0]))
    ensures DropLeaders(marks + rest) == rest
  {
    var s := marks + rest;
    if marks == "" {
      assert s == rest;
    } else {
      assert s[0] == marks[0] && s[1..] == marks[1..] + rest;
      DropLeadersThen(marks[1..], rest);
    }
  }

  lemma {:induction false} LStripThen(gap: string, rest: string)
    requires (forall i :: 0 <= i < |gap| ==> IsSpace(gap[i])) && (rest != "" ==> !IsSpace(rest[0]))
    ensures LStrip(gap + rest) == rest
  {
    var s := gap + rest;
    if gap == "" {
      assert s == rest;
    } else {
      assert s[0] == gap[0] && s[1..] == gap[1..] + rest;
      LStripThen(gap[1..], rest);
    }
  }

  lemma LeadersGo(marks: string, gap: string, text: string)
    requires Led(marks, gap, text)
    ensures StripLeaders(marks + gap + text) == text
  {
    assert marks + gap + text == marks + (gap + text);
    assert (gap + text)[0] == if gap == "" then text[0] else gap[0];
    assert gap != "" ==> IsSpace(gap[0]) && !Leader(gap[0]);
    DropLeadersThen(marks, gap + text);
    LStripThen(gap, text);
    if marks == "" {
      assert marks + gap + text == text;
    }
  }

  // ----- names -------------------------------------------------------------------

  /** Lower-case words of letters, digits and `_`. */
  predicate IsWord(w: string)
  {
    w != "" && forall i :: 0 <= i < |w| ==> 'a' <= w[i] <= 'z' || '0' <= w[i] <= '9' || w[i] == '_'
  }

  ghost predicate AllWords(ws: seq<string>)
  {
    forall i :: 0 <= i < |ws| ==> IsWord(ws[i])
  }

  /** What stands between words. */
  predicate IsGap(g: string)
  {
    forall i :: 0 <= i < |g| ==> !('a' <= g[i] <= 'z' || 'A' <= g[i] <= 'Z' || '0' <= g[i] <= '9' || g[i] == '_')
  }

  ghost predicate WordsAndGaps(ws: seq<string>, gaps: seq<string>)
  {
    && ws != [] && |gaps| == |ws| && AllWords(ws)
    && (forall i :: 0 <= i < |gaps| ==> IsGap(gaps[i])) && (forall i :: 0 <= i < |ws| - 1 ==> gaps[i] != "")
  }

  /** Each word with what follows it. */
  function Phrase(ws: seq<string>, gaps: seq<string>): string
    requires |gaps| == |ws|
  {
    if ws == [] then "" else ws[0] + (gaps[0] + Phrase(ws[1..], gaps[1..]))
  }

  function Hyphenated(ws: seq<string>): string
  {
    if ws == [] then "" else if |ws| == 1 then ws[0] else ws[0] + ("-" + Hyphenated(ws[1..]))
  }

  /** Both passes of the slug, each in or out of a run of what it replaces. */
  function Collapsed(s: string, inGap: bool, inDashes: bool): string
  {
    SingleDashes(Dashed(s, inGap), inDashes)
  }

  lemma {:induction false} WordStays(w: string, x: string, inGap: bool, inDashes: bool)
    requires IsWord(w)
    ensures Collapsed(w + x, inGap, inDashes) == w + Collapsed(x, false, false)
  {
    var s := w + x;
    assert s[0] == w[0] && s[1..] == w[1..] + x && IsIdChar(w[0]) && w[0] != '-';
    assert Dashed(s, inGap) == [w[0]] + Dashed(s[1..], false);
    if |w| == 1 {
      assert s[1..] == x;
    } else {
      WordStays(w[1..], x, false, false);
    }
  }

  lemma DashedByHead(c: char, rest: string, inGap: bool)
    ensures Dashed([c] + rest, inGap)
            == if IsIdChar(c) then [c] + Dashed(rest, false) else (if inGap then "" else "-") + Dashed(rest, true)
  {
    assert ([c] + rest)[1..] == rest;
  }

  lemma SingleByHead(c: char, rest: string, inDashes: bool)
    ensures SingleDashes([c] + rest, inDashes)
            == if c != '-' then [c] + SingleDashes(rest, false)
               else (if inDashes then "" else "-") + SingleDashes(rest, true)
  {
    assert ([c] + rest)[1..] == rest;
  }

  lemma GapCharCollapses(c: char, rest: string, inGap: bool, inDashes: bool)
    requires IsGap([c]) && (inGap ==> inDashes)
    ensures Collapsed([c] + rest, inGap, inDashes)
            == (if inDashes then "" else "-") + Collapsed(rest, c != '-', true)
  {
    assert [c][0] == c;
    DashedByHead(c, rest, inGap);
    SingleByHead('-', Dashed(rest, c != '-'), inDashes);
    assert "" + Dashed(rest, true) == Dashed(rest, true);
    hide Dashed, SingleDashes;
  }

  /** Whatever stands between two words becomes one dash. */
  lemma {:induction false} GapCollapses(g: string, x: string, inGap: bool, inDashes: bool)
    requires IsGap(g) && (inGap ==> inDashes) && (x != "" ==> IsIdChar(x[0]))
    ensures Collapsed(g + x, inGap, inDashes)
            == (if g == "" || inDashes then "" else "-") + Collapsed(x, false, inDashes || g != "")
  {
    if g == "" {
      assert g + x == x && Dashed(x, inGap) == Dashed(x, false);
    } else {
      assert g + x == [g[0]] + (g[1..] + x);
      GapCharCollapses(g[0], g[1..] + x, inGap, inDashes);
      GapCollapses(g[1..], x, g[0] != '-', true);
      hide Collapsed;
    }
  }

  lemma FirstWordCollapses(w: string, gap: string, rest: string, inDashes: bool)
    requires IsWord(w) && IsGap(gap) && (rest != "" ==> IsIdChar(rest[0]))
    ensures Collapsed(w + (gap + rest), false, inDashes)
            == w + ((if gap == "" then "" else "-") + Collapsed(rest, false, gap != ""))
  {
    hide Collapsed, IsWord, IsGap;
    WordStays(w, gap + rest, false, inDashes);
    GapCollapses(gap, rest, false, false);
  }

  lemma FewerWords(ws: seq<string>, gaps: seq<string>)
    requires WordsAndGaps(ws, gaps) && |ws| > 1
    ensures WordsAndGaps(ws[1..], gaps[1..]) && gaps[0] != ""
    ensures Phrase(ws[1..], gaps[1..]) != "" && IsIdChar(Phrase(ws[1..], gaps[1..])[0])
  {
    assert IsWord(ws[1]);
    assert forall i :: 0 <= i < |ws| - 1 ==> ws[1..][i] == ws[i + 1] && gaps[1..][i] == gaps[i + 1];
    var rest := Phrase(ws[1..], gaps[1..]);
    assert rest[0] == ws[1][0];
  }

  lemma Regroup(a: string, b: string, c: string)
    ensures a + ("-" + (b + c)) == a + ("-" + b) + c
  {
  }

  lemma {:induction false} PhraseCollapses(ws: seq<string>, gaps: seq<string>, inDashes: bool)
    requires WordsAndGaps(ws, gaps)
    ensures Collapsed(Phrase(ws, gaps), false, inDashes)
            == Hyphenated(ws) + (if gaps[|ws| - 1] == "" then "" else "-")
    decreases |ws|
  {
    assert IsWord(ws[0]) && IsGap(gaps[0]);
    if |ws| > 1 {
      FewerWords(ws, gaps);
      FirstWordCollapses(ws[0], gaps[0], Phrase(ws[1..], gaps[1..]), inDashes);
      PhraseCollapses(ws[1..], gaps[1..], true);
      Regroup(ws[0], Hyphenated(ws[1..]), if gaps[|ws| - 1] == "" then "" else "-");
      hide Collapsed, IsWord, IsGap, WordsAndGaps;
    } else {
      FirstWordCollapses(ws[0], gaps[0], "", inDashes);
      assert Collapsed("", false, gaps[0] != "") == "";
      assert Phrase(ws, gaps) == ws[0] + (gaps[0] + "");
      hide Collapsed, IsWord, IsGap, WordsAndGaps;
    }
  }

  lemma {:induction false} HyphenatedEnds(ws: seq<string>)
    requires ws != [] && AllWords(ws)
    ensures var h := Hyphenated(ws); h != "" && h[0] != '-' && h[|h| - 1] != '-'
    decreases |ws|
  {
    var w := ws[0];
    assert IsWord(w) && w[0] != '-' && w[|w| - 1] != '-';
    if |ws| > 1 {
      HyphenatedEnds(ws[1..]);
    }
    hide IsWord;
  }

  lemma TrailingDashGoes(x: string, after: string)
    requires x != "" && x[0] != '-' && x[|x| - 1] != '-' && after in {"", "-"}
    ensures StripDashes(x + after) == x && (x + after)[0] == x[0]
  {
    assert StripDashes(x) == x;
    if after == "" {
      assert x + after == x;
    } else {
      assert (x + after)[..|x + after| - 1] == x;
    }
  }

  lemma StripDashesInside(x: string, before: string, after: string)
    requires x != "" && x[0] != '-' && x[|x| - 1] != '-' && before in {"", "-"} && after in {"", "-"}
    ensures StripDashes(before + x + after) == x
  {
    TrailingDashGoes(x, after);
    if before == "" {
      assert before + x + after == x + after;
    } else {
      assert (before + x + after)[0] == '-' && (before + x + after)[1..] == x + after;
    }
  }

  lemma {:induction false} LowerStays(s: string)
    requires NoCapitals(s)
    ensures Lower(s) == s
  {
    if s != "" {
      LowerStays(s[1..]);
    }
  }

  lemma {:induction false} PhraseHasNoCapitals(ws: seq<string>, gaps: seq<string>)
    requires |gaps| == |ws| && AllWords(ws) && forall i :: 0 <= i < |ws| ==> IsGap(gaps[i])
    ensures NoCapitals(Phrase(ws, gaps))
  {
    if ws != [] {
      PhraseHasNoCapitals(ws[1..], gaps[1..]);
    }
  }

  /**
   * A slug is the words of the subject with one dash between them, whatever stands
   * between and around them there, cut at thirty-two characters.
   */
  lemma SlugJoinsWords(d: Draft, before: string, ws: seq<string>, gaps: seq<string>)
    requires WordsAndGaps(ws, gaps) && IsGap(before) && EffectiveSubject(d) == before + Phrase(ws, gaps)
    ensures var h := Hyphenated(ws); SlugOf(d) == if |h| <= 32 then h else h[..32]
  {
    hide EffectiveSubject, Strip, Lower, Dashed, Phrase, SingleDashes, StripDashes, Trimmed, NoCapitals, IsGap;
    var s := before + Phrase(ws, gaps);
    EffectiveSubjectIsPlain(d);
    StripTrims(s);
    SubjectHasNoCapitals(before, ws, gaps);
    LowerStays(s);
    PhraseBegins(ws, gaps);
    GapCollapses(before, Phrase(ws, gaps), false, false);
    PhraseCollapses(ws, gaps, before != "");
    HyphenatedEnds(ws);
    var start, end := if before == "" then "" else "-", if gaps[|ws| - 1] == "" then "" else "-";
    StripDashesInside(Hyphenated(ws), start, end);
    hide Hyphenated, WordsAndGaps, IsWord;
    assert start + (Hyphenated(ws) + end) == start + Hyphenated(ws) + end;
    assert Collapsed(s, false, false) == start + Hyphenated(ws) + end;
    assert Slugify(s) == Hyphenated(ws);
  }

  lemma PhraseBegins(ws: seq<string>, gaps: seq<string>)
    requires WordsAndGaps(ws, gaps)
    ensures Phrase(ws, gaps) != "" && IsIdChar(Phrase(ws, gaps)[0])
  {
    assert IsWord(ws[0]);
    assert Phrase(ws, gaps)[0] == ws[0][0];
  }

  lemma SubjectHasNoCapitals(before: string, ws: seq<string>, gaps: seq<string>)
    requires WordsAndGaps(ws, gaps) && IsGap(before)
    ensures NoCapitals(before + Phrase(ws, gaps))
  {
    PhraseHasNoCapitals(ws, gaps);
  }

  /** A subject without letters, digits and `_` gives the slug `msg`. */
  lemma SlugOfNothing(d: Draft)
    requires IsGap(EffectiveSubject(d))
    ensures SlugOf(d) == "msg"
  {
    var s := EffectiveSubject(d);
    EffectiveSubjectIsPlain(d);
    StripTrims(s);
    assert NoCapitals(s);
    LowerStays(s);
    GapCollapses(s, "", false, false);
    assert s + "" == s && Collapsed("", false, true) == "";
    assert StripDashes("-") == StripDashes("") == "";
    hide EffectiveSubject, Strip, Lower, Dashed, SingleDashes;
    assert Collapsed(s, false, false) == "-";
  }

  /** The name tells the second, the sender's first eight characters and the subject; a number tells equals apart. */
  lemma NameTells(d: Draft, now: Utc, n: nat)
    ensures FileName(CandidateId(BaseId(d.fromUser, now, SlugOf(d)), n))
            == Fields(now, "", "", "Z") + "-" + (if |d.fromUser| <= 8 then d.fromUser else d.fromUser[..8]) + "-"
               + SlugOf(d) + (if n == 0 then "" else "-" + Dec(n)) + ".md"
  {
    CompactStamp(now);
    hide SlugOf, Stamp, Compact, Fields, Dec;
  }

  lemma CandidateNamesDiffer(base: string, m: nat, n: nat)
    requires m != n
    ensures FileName(CandidateId(base, m)) != FileName(CandidateId(base, n))
  {
    DecIsANumeral(m);
    DecIsANumeral(n);
    var a, b := FileName(CandidateId(base, m)), FileName(CandidateId(base, n));
    assert m != 0 ==> a[|base| + 1..|a| - 3] == Dec(m);
    assert n != 0 ==> b[|base| + 1..|b| - 3] == Dec(n);
  }

  /** What a write adds is read back, unread, with the values of the draft; every other file stays. */
  lemma WrittenFields(box: Box, d: Draft, now: Utc, n: nat)
    requires Check(d) == None && DraftSurvives(d)
    ensures var name := FileName(CandidateId(BaseId(d.fromUser, now, SlugOf(d)), n));
      var after := Stored(box, d, now, SlugOf(d), n);
      && name in after && after == box[name := after[name]] && Read(after[name]).Parsed?
      && var m := Read(after[name]).message;
         && m.readAt == None && m.header.id + ".md" == name
         && m.header.fromUser == d.fromUser && m.header.fromEmail == d.fromEmail && m.header.toUser == d.toUser
         && m.header.subject == EffectiveSubject(d) && m.header.sentAt == Fields(now, "-", ":", "Z")
         && m.header.inReplyTo == d.inReplyTo && m.header.priority == d.priority && m.header.kind == d.kind
         && m.body == StoredBody(d.body)
  {
    WrittenReadsBackExactly(d, now, n);
    hide Check, DraftSurvives, Read, Render, SlugOf, BaseId, CandidateId, EffectiveSubject, StoredBody, Fields;
  }
}
