/** Reading back what the inbox printer wrote, and what setting `read_at` changes. */
module InboxRoundTrip {
  import opened Text
  import opened InboxFormat

  // ----- values ----------------------------------------------------------------

  lemma {:induction false} QuotesComeBack(s: string)
    ensures UnescapeQuotes(EscapeQuotes(s)) == s
    ensures s != "" ==> EscapeQuotes(s) != "" && EscapeQuotes(s)[0] != '"'
  {
    if s != "" {
      QuotesComeBack(s[1..]);
      var e := EscapeQuotes(s);
      if s[0] == '"' {
        assert e[2..] == EscapeQuotes(s[1..]) && "\\\"" <= e;
      } else {
        assert e[1..] == EscapeQuotes(s[1..]);
        assert !("\\\"" <= e);
      }
    }
  }

  lemma {:induction false} BackslashesComeBack(s: string)
    ensures UnescapeBackslashes(EscapeBackslashes(s)) == s
  {
    if s != "" {
      BackslashesComeBack(s[1..]);
      var e := EscapeBackslashes(s);
      if s[0] == '\\' {
        assert e[2..] == EscapeBackslashes(s[1..]) && "\\\\" <= e;
      } else {
        assert e[1..] == EscapeBackslashes(s[1..]);
      }
    }
  }

  /** The two-pass unescape inverts the two-pass escape on every mix of quotes and backslashes. */
  lemma UnescapeInvertsEscape(s: string)
    ensures UnescapeBackslashes(UnescapeQuotes(EscapeQuotes(EscapeBackslashes(s)))) == s
  {
    QuotesComeBack(EscapeBackslashes(s));
    BackslashesComeBack(s);
  }

  lemma {:induction false} StripKeepsCharacters(s: string)
    ensures |Strip(s)| <= |s|
    ensures forall c :: c in Strip(s) ==> c in s
    ensures Strip(" " + s) == Strip(s)
  {
    LStripDropsSpaces(s);
    RStripDropsSpaces(LStrip(s));
    assert (" " + s)[1..] == s;
  }

  lemma SpecialFree(s: string)
    requires !NeedsQuote(s)
    ensures '"' !in s
  {
    forall i | 0 <= i < |s| ensures s[i] != '"' {
      assert !Special(s[i]);
    }
  }

  /** The values that survive printing and parsing, line breaks aside. */
  predicate Returns(s: string)
  {
    NeedsQuote(s) || (s != "" && Trimmed(s))
  }

  lemma NullNeedsQuote()
    ensures NeedsQuote("null")
  {
    assert Lower("null") == "null" by {
      assert "null"[1..] == "ull" && "ull"[1..] == "ll" && "ll"[1..] == "l" && "l"[1..] == "";
    }
  }

  lemma UnquotedValue(s: string)
    requires !NeedsQuote(s)
    ensures ParseValue(s) == (if Strip(s) == "null" || Strip(s) == "" then None else Some(Strip(s)))
    ensures Strip(s) == s ==> s != "null"
  {
    SpecialFree(s);
    StripKeepsCharacters(s);
    if Strip(s) != "" {
      assert Strip(s)[0] in Strip(s);
    }
    NullNeedsQuote();
  }

  lemma QuotedValue(s: string)
    requires NeedsQuote(s)
    ensures ParseValue(YamlValue(Some(s))) == Some(s)
  {
    var e := EscapeQuotes(EscapeBackslashes(s));
    var v := "\"" + e + "\"";
    UnescapeInvertsEscape(s);
    StripTrims(v);
    assert v[1..|v| - 1] == e;
  }

  lemma ValueReturnsExactly(s: string)
    ensures ParseValue(YamlValue(Some(s))) == Some(s) <==> Returns(s)
    ensures ParseValue(YamlValue(Some(s))) != Some("")
    ensures ParseValue(YamlValue(Some(s))) == None ==> s != "normal" && s != "chat"
  {
    EmptyNeedsNoQuote();
    StripTrims("normal");
    StripTrims("chat");
    assert Trimmed("normal") && Trimmed("chat");
    if NeedsQuote(s) {
      hide ParseValue, NeedsQuote, Strip, EscapeQuotes, EscapeBackslashes;
      QuotedValue(s);
    } else {
      hide ParseValue, NeedsQuote, Strip;
      UnquotedValue(s);
      StripTrims(s);
    }
  }

  lemma EmptyNeedsNoQuote()
    ensures !NeedsQuote("")
  {
    assert Lower("") == "";
  }

  lemma NullReturnsNone()
    ensures ParseValue("null") == None && BreakFree("null")
  {
    StripTrims("null");
  }

  // ----- lines -----------------------------------------------------------------

  /** Keys are lower-case words joined by underscores. */
  predicate IsKey(k: string)
  {
    k != "" && forall i :: 0 <= i < |k| ==> 'a' <= k[i] <= 'z' || k[i] == '_'
  }

  predicate Clean(es: seq<Entry>)
  {
    forall i :: 0 <= i < |es| ==> IsKey(es[i].key) && BreakFree(es[i].text)
  }

  lemma LineLengthThen(line: string, x: string)
    requires BreakFree(line)
    requires x == "" || IsLineBreak(x[0])
    ensures LineLength(line + x) == |line|
  {
    var s := line + x;
    var n := LineLength(s);
    assert forall i :: 0 <= i < n ==> s[..n][i] == s[i];
    assert forall i :: 0 <= i < |line| ==> s[i] == line[i];
    assert x != "" ==> s[|line|] == x[0];
  }

  lemma SplitFirst(line: string, rest: string)
    requires BreakFree(line)
    ensures SplitLines(line + ("\n" + rest)) == [line] + SplitLines(rest)
  {
    var s := line + ("\n" + rest);
    LineLengthThen(line, "\n" + rest);
    assert s[..|line|] == line && s[|line| + 1..] == rest;
    assert s[|line|..][0] == '\n';
  }

  lemma {:induction false} SplitInvertsJoin(lines: seq<string>)
    requires forall i :: 0 <= i < |lines| ==> BreakFree(lines[i]) && lines[i] != ""
    ensures SplitLines(JoinLines(lines)) == lines
  {
    if |lines| == 1 {
      assert lines[0] + "" == lines[0];
      LineLengthThen(lines[0], "");
    } else if |lines| > 1 {
      SplitInvertsJoin(lines[1..]);
      SplitFirst(lines[0], JoinLines(lines[1..]));
    }
  }

  lemma {:induction false} SplitLinesAreBreakFree(s: string)
    ensures forall i :: 0 <= i < |SplitLines(s)| ==> BreakFree(SplitLines(s)[i])
    decreases |s|
  {
    if s != "" && LineLength(s) < |s| {
      var n := LineLength(s);
      SplitLinesAreBreakFree(s[n + (if "\r\n" <= s[n..] then 2 else 1)..]);
    }
  }

  /** A line break in joined entries is followed by the first letter of a key. */
  predicate BreaksBeforeKeys(s: string)
  {
    forall i :: 0 <= i < |s| && s[i] == '\n' ==> i + 1 < |s| && s[i + 1] != '-'
  }

  lemma {:induction false} JoinedEntries(es: seq<Entry>)
    requires Clean(es) && es != []
    ensures var s := JoinLines(LinesOf(es));
      s != "" && s[0] != '-' && s[0] != '\n' && '\r' !in s && BreaksBeforeKeys(s)
  {
    var line := es[0].Line();
    assert line[0] == es[0].key[0];
    EntryLineIsBreakFree(es[0]);
    if |es| == 1 {
      assert LinesOf(es) == [line];
    } else {
      JoinedEntries(es[1..]);
      var rest := JoinLines(LinesOf(es[1..]));
      assert LinesOf(es)[1..] == LinesOf(es[1..]);
      var s := line + ("\n" + rest);
      assert JoinLines(LinesOf(es)) == s;
      forall i | 0 <= i < |s| && s[i] == '\n' ensures i + 1 < |s| && s[i + 1] != '-' {
        if i > |line| {
          assert s[i] == rest[i - |line| - 1] && s[i..] == rest[i - |line| - 1..];
        }
      }
    }
  }

  lemma EntryLineIsBreakFree(e: Entry)
    requires IsKey(e.key) && BreakFree(e.text)
    ensures BreakFree(e.Line()) && e.Line() != "" && !IsSpace(e.Line()[0]) && '\r' !in e.Line() && '\n' !in e.Line()
  {
  }

  lemma FenceFollows(s: string, x: string)
    requires BreaksBeforeKeys(s)
    ensures FenceAt(s + ("\n---" + x)) == |s|
  {
    var t := s + ("\n---" + x);
    var n := FenceAt(t);
    assert t[|s|..] == "\n---" + x;
    forall i | 0 <= i < |s| ensures !("\n---" <= t[i..]) {
      assert t[i..][0] == s[i];
      if s[i] == '\n' {
        assert t[i..][1] == s[i + 1];
      }
    }
  }

  lemma {:induction false} UniversalKeeps(a: string, b: string)
    requires '\r' !in a
    ensures Universal(a + b) == a + Universal(b)
  {
    if a == "" {
      assert a + b == b;
    } else {
      UniversalKeeps(a[1..], b);
      assert (a + b)[1..] == a[1..] + b;
    }
  }

  lemma {:induction false} UniversalHasNoReturns(s: string)
    ensures '\r' !in Universal(s)
    ensures |Universal(s)| <= |s|
    decreases |s|
  {
    if s != "" {
      UniversalHasNoReturns(if s[0] == '\r' && "\r\n" <= s then s[2..] else s[1..]);
    }
  }

  lemma UniversalTwice(s: string)
    ensures Universal(Universal(s)) == Universal(s)
  {
    UniversalHasNoReturns(s);
    UniversalKeeps(Universal(s), "");
    assert Universal(s) + "" == Universal(s);
  }

  // ----- the dictionary --------------------------------------------------------

  lemma ColonOfEntry(e: Entry)
    requires IsKey(e.key)
    ensures var line := e.Line();
      |e.key| < |line| && ColonAt(line) == |e.key| && line[..|e.key|] == e.key
      && line[|e.key| + 1..] == " " + e.text
  {
    var line := e.Line();
    var n := ColonAt(line);
    assert forall i :: 0 <= i < n ==> line[..n][i] == line[i];
    assert forall i :: 0 <= i < |e.key| ==> line[i] == e.key[i];
    assert line[|e.key|] == ':';
  }

  lemma EntryParses(fields: Dictionary, e: Entry)
    requires IsKey(e.key)
    ensures AddLine(fields, e.Line()) == fields[e.key := ParseValue(e.text)]
  {
    hide UnescapeQuotes, UnescapeBackslashes, Strip, ColonAt;
    ColonOfEntry(e);
    StripTrims(e.key);
    StripKeepsCharacters(e.text);
  }

  lemma LinesOfFirst(es: seq<Entry>, n: nat)
    requires n < |es|
    ensures LinesOf(es)[..n] == LinesOf(es[..n]) && LinesOf(es)[n] == es[n].Line()
  {
  }

  lemma LastLineWins(lines: seq<string>, init: seq<string>, e: Entry)
    requires lines != [] && lines[..|lines| - 1] == init && lines[|lines| - 1] == e.Line()
    requires IsKey(e.key)
    ensures FieldsOf(lines) == FieldsOf(init)[e.key := ParseValue(e.text)]
  {
    EntryParses(FieldsOf(init), e);
  }

  lemma LastEntryWins(es: seq<Entry>)
    requires es != [] && IsKey(es[|es| - 1].key)
    ensures var last := es[|es| - 1];
      FieldsOf(LinesOf(es)) == FieldsOf(LinesOf(es[..|es| - 1]))[last.key := ParseValue(last.text)]
  {
    var n := |es| - 1;
    LinesOfFirst(es, n);
    LastLineWins(LinesOf(es), LinesOf(es[..n]), es[n]);
  }

  lemma {:induction false} FieldOfEntry(es: seq<Entry>, i: nat)
    requires i < |es| && AllKeys(es)
    requires forall j :: i < j < |es| ==> es[j].key != es[i].key
    ensures Get(FieldsOf(LinesOf(es)), es[i].key) == ParseValue(es[i].text)
  {
    LastEntryWins(es);
    if i < |es| - 1 {
      FieldOfEntry(es[..|es| - 1], i);
    }
  }

  predicate AllKeys(es: seq<Entry>)
  {
    forall i :: 0 <= i < |es| ==> IsKey(es[i].key)
  }

  const KEYS: seq<string> :=
    ["id", "from_user", "from_email", "to_user", "subject", "sent_at", "read_at", "in_reply_to", "priority", "type"]

  lemma KeysAreWords()
    ensures forall i :: 0 <= i < 10 ==> IsKey(KEYS[i])
  {
    assert IsKey("id") && IsKey("from_user") && IsKey("from_email") && IsKey("to_user") && IsKey("subject");
    assert IsKey("sent_at") && IsKey("read_at") && IsKey("in_reply_to") && IsKey("priority") && IsKey("type");
  }

  lemma KeysDiffer()
    ensures forall i, j :: 0 <= i < j < 10 ==> KEYS[i] != KEYS[j]
  {
    assert |KEYS[0]| == 2 && |KEYS[1]| == 9 && |KEYS[2]| == 10 && |KEYS[7]| == 11;
    assert |KEYS[8]| == 8 && |KEYS[9]| == 4;
    assert |KEYS[3]| == 7 && KEYS[3][0] == 't';
    assert |KEYS[4]| == 7 && KEYS[4][1] == 'u';
    assert |KEYS[5]| == 7 && KEYS[5][0] == 's' && KEYS[5][1] == 'e';
    assert |KEYS[6]| == 7 && KEYS[6][0] == 'r';
  }

  lemma KeysAreDistinct(h: Header, mark: string)
    ensures AllKeys(Entries(h, mark))
    ensures forall i, j :: 0 <= i < j < 10 ==> Entries(h, mark)[i].key != Entries(h, mark)[j].key
  {
    KeysAreWords();
    KeysDiffer();
    assert forall i :: 0 <= i < 10 ==> Entries(h, mark)[i].key == KEYS[i];
  }

  /** What a lookup in the dictionary of a printed header gives. */
  lemma FieldsOfHeader(h: Header, mark: string, f: Dictionary)
    requires f == FieldsOf(LinesOf(Entries(h, mark)))
    ensures Get(f, "id") == ParseValue(YamlValue(Some(h.id)))
    ensures Get(f, "from_user") == ParseValue(YamlValue(Some(h.fromUser)))
    ensures Get(f, "from_email") == ParseValue(YamlValue(h.fromEmail))
    ensures Get(f, "to_user") == ParseValue(YamlValue(Some(h.toUser)))
    ensures Get(f, "subject") == ParseValue(YamlValue(Some(h.subject)))
    ensures Get(f, "sent_at") == ParseValue(YamlValue(Some(h.sentAt)))
    ensures Get(f, "read_at") == ParseValue(mark)
    ensures Get(f, "in_reply_to") == ParseValue(YamlValue(h.inReplyTo))
    ensures Get(f, "priority") == ParseValue(YamlValue(Some(h.priority)))
    ensures Get(f, "type") == ParseValue(YamlValue(Some(h.kind)))
  {
    KeysAreDistinct(h, mark);
    var es := Entries(h, mark);
    forall i | 0 <= i < 10 ensures Get(f, es[i].key) == ParseValue(es[i].text) {
      FieldOfEntry(es, i);
    }
    assert es[0].key == "id" && es[1].key == "from_user" && es[2].key == "from_email" && es[3].key == "to_user";
    assert es[4].key == "subject" && es[5].key == "sent_at" && es[6].key == "read_at";
    assert es[7].key == "in_reply_to" && es[8].key == "priority" && es[9].key == "type";
  }

  // ----- the whole file --------------------------------------------------------

  predicate OptionBreakFree(v: Option<string>)
  {
    v.Some? ==> BreakFree(v.value)
  }

  predicate HeaderBreakFree(h: Header)
  {
    && BreakFree(h.id) && BreakFree(h.fromUser) && OptionBreakFree(h.fromEmail) && BreakFree(h.toUser)
    && BreakFree(h.subject) && BreakFree(h.sentAt) && OptionBreakFree(h.inReplyTo)
    && BreakFree(h.priority) && BreakFree(h.kind)
  }

  lemma {:induction false} EscapeKeepsBreaks(s: string)
    ensures BreakFree(s) ==> BreakFree(EscapeQuotes(s)) && BreakFree(EscapeBackslashes(s))
  {
    if s != "" {
      EscapeKeepsBreaks(s[1..]);
      assert s == [s[0]] + s[1..];
    }
  }

  lemma YamlValueIsBreakFree(v: Option<string>)
    requires OptionBreakFree(v)
    ensures BreakFree(YamlValue(v))
  {
    if v.Some? {
      EscapeKeepsBreaks(v.value);
      EscapeKeepsBreaks(EscapeBackslashes(v.value));
    }
  }

  lemma EntriesAreClean(h: Header, mark: string)
    requires HeaderBreakFree(h) && BreakFree(mark)
    ensures Clean(Entries(h, mark))
  {
    KeysAreDistinct(h, mark);
    YamlValueIsBreakFree(Some(h.id));
    YamlValueIsBreakFree(Some(h.fromUser));
    YamlValueIsBreakFree(h.fromEmail);
    YamlValueIsBreakFree(Some(h.toUser));
    YamlValueIsBreakFree(Some(h.subject));
    YamlValueIsBreakFree(Some(h.sentAt));
    YamlValueIsBreakFree(h.inReplyTo);
    YamlValueIsBreakFree(Some(h.priority));
    YamlValueIsBreakFree(Some(h.kind));
  }

  lemma UniversalOfFile(es: seq<Entry>, tail: string)
    requires Clean(es) && es != []
    ensures Universal(FileText(es, tail)) == FileText(es, Universal(tail))
  {
    JoinedEntries(es);
    var head := "---\n" + (JoinLines(LinesOf(es)) + "\n---\n\n");
    assert FileText(es, tail) == head + tail && FileText(es, Universal(tail)) == head + Universal(tail);
    UniversalKeeps(head, tail);
  }

  lemma FileWithoutItsFence(s: string, u: string)
    requires s != "" && s[0] != '\n'
    ensures var text := "---\n" + (s + ("\n---\n\n" + u));
      "---" <= text && DropNewlines(text[3..]) == s + ("\n---" + ("\n\n" + u))
  {
    var text := "---\n" + (s + ("\n---\n\n" + u));
    var rest := s + ("\n---" + ("\n\n" + u));
    assert text[3..] == "\n" + rest;
    assert text[3..][1..] == rest && rest[0] == s[0];
  }

  lemma BodyAfterTheFence(s: string, u: string)
    ensures var rest := s + ("\n---" + ("\n\n" + u));
      rest[..|s|] == s && DropNewlines(rest[|s| + 4..]) == DropNewlines(u)
  {
    var rest := s + ("\n---" + ("\n\n" + u));
    assert rest[|s| + 4..] == "\n\n" + u;
    assert ("\n\n" + u)[1..] == "\n" + u && ("\n" + u)[1..] == u;
  }

  lemma LinesComeBack(es: seq<Entry>)
    requires Clean(es)
    ensures SplitLines(JoinLines(LinesOf(es))) == LinesOf(es)
  {
    forall i | 0 <= i < |es| ensures BreakFree(LinesOf(es)[i]) && LinesOf(es)[i] != "" {
      EntryLineIsBreakFree(es[i]);
    }
    SplitInvertsJoin(LinesOf(es));
  }

  lemma RestIsCut(es: seq<Entry>, u: string)
    requires Clean(es) && es != []
    ensures ReadRest(JoinLines(LinesOf(es)) + ("\n---" + ("\n\n" + u)))
            == FromFields(FieldsOf(LinesOf(es)), DropNewlines(u))
  {
    var s := JoinLines(LinesOf(es));
    JoinedEntries(es);
    FenceFollows(s, "\n\n" + u);
    BodyAfterTheFence(s, u);
    LinesComeBack(es);
  }

  /** A printed file is cut at its own fences, whatever the body holds. */
  lemma FileIsCutAtItsFences(es: seq<Entry>, tail: string)
    requires Clean(es) && es != []
    ensures Read(FileText(es, tail)) == FromFields(FieldsOf(LinesOf(es)), DropNewlines(Universal(tail)))
  {
    UniversalOfFile(es, tail);
    JoinedEntries(es);
    FileWithoutItsFence(JoinLines(LinesOf(es)), Universal(tail));
    RestIsCut(es, Universal(tail));
  }

  // ----- the round trip --------------------------------------------------------

  lemma RequiredAll(f: Dictionary)
    ensures FirstMissing(f, REQUIRED) == None <==>
      Present(Get(f, "id")) && Present(Get(f, "from_user")) && Present(Get(f, "to_user"))
      && Present(Get(f, "subject")) && Present(Get(f, "sent_at"))
  {
    var s4 := ["sent_at"];
    var s3 := ["subject"] + s4;
    var s2 := ["to_user"] + s3;
    var s1 := ["from_user"] + s2;
    assert REQUIRED == ["id"] + s1;
    assert FirstMissing(f, s4) == None <==> Present(Get(f, "sent_at"));
    assert s3[1..] == s4 && s2[1..] == s3 && s1[1..] == s2 && REQUIRED[1..] == s1;
    assert FirstMissing(f, s2) == None <==>
      Present(Get(f, "to_user")) && Present(Get(f, "subject")) && Present(Get(f, "sent_at"));
  }

  predicate OptionReturns(v: Option<string>)
  {
    v.Some? ==> Returns(v.value)
  }

  /** Every value is quoted by the printer, or non-empty and trimmed. */
  predicate HeaderReturns(h: Header)
  {
    && Returns(h.id) && Returns(h.fromUser) && OptionReturns(h.fromEmail) && Returns(h.toUser)
    && Returns(h.subject) && Returns(h.sentAt) && OptionReturns(h.inReplyTo)
    && Returns(h.priority) && Returns(h.kind)
  }

  lemma OptionReturnsExactly(v: Option<string>)
    ensures ParseValue(YamlValue(v)) == v <==> OptionReturns(v)
  {
    NullReturnsNone();
    if v.Some? {
      ValueReturnsExactly(v.value);
    }
  }

  lemma RequiredReturnsExactly(s: string)
    ensures Returns(s) ==> Present(ParseValue(YamlValue(Some(s))))
    ensures Present(ParseValue(YamlValue(Some(s)))) ==>
      (OrElse(ParseValue(YamlValue(Some(s))), "") == s <==> Returns(s))
    ensures OrElse(ParseValue(YamlValue(Some(s))), "normal") == s <==> Returns(s)
    ensures OrElse(ParseValue(YamlValue(Some(s))), "chat") == s <==> Returns(s)
  {
    ValueReturnsExactly(s);
  }

  lemma HeaderComesBackExactly(h: Header, mark: string, body: string, f: Dictionary)
    requires f == FieldsOf(LinesOf(Entries(h, mark)))
    ensures FromFields(f, body) == Parsed(Message(h, ParseValue(mark), body)) <==> HeaderReturns(h)
  {
    FieldsOfHeader(h, mark, f);
    RequiredAll(f);
    RequiredReturnsExactly(h.id);
    RequiredReturnsExactly(h.fromUser);
    OptionReturnsExactly(h.fromEmail);
    RequiredReturnsExactly(h.toUser);
    RequiredReturnsExactly(h.subject);
    RequiredReturnsExactly(h.sentAt);
    OptionReturnsExactly(h.inReplyTo);
    RequiredReturnsExactly(h.priority);
    RequiredReturnsExactly(h.kind);
  }

  lemma {:induction false} UnescapeKeepsBreakFree(s: string)
    requires BreakFree(s)
    ensures BreakFree(UnescapeQuotes(s)) && BreakFree(UnescapeBackslashes(s))
    decreases |s|
  {
    if s != "" {
      UnescapeKeepsBreakFree(s[1..]);
      if |s| > 1 {
        UnescapeKeepsBreakFree(s[2..]);
      }
    }
  }

  lemma ParsedValueIsBreakFree(text: string)
    requires BreakFree(text)
    ensures OptionBreakFree(ParseValue(text))
  {
    StripKeepsCharacters(text);
    var v := Strip(text);
    assert forall i :: 0 <= i < |v| ==> v[i] in text;
    assert BreakFree(v);
    if |v| > 1 {
      UnescapeKeepsBreakFree(v[1..|v| - 1]);
      UnescapeKeepsBreakFree(UnescapeQuotes(v[1..|v| - 1]));
    }
  }

  lemma {:induction false} FieldsAreBreakFree(lines: seq<string>)
    requires forall i :: 0 <= i < |lines| ==> BreakFree(lines[i])
    ensures forall k :: k in FieldsOf(lines) ==> OptionBreakFree(FieldsOf(lines)[k])
  {
    if lines != [] {
      var line := lines[|lines| - 1];
      FieldsAreBreakFree(lines[..|lines| - 1]);
      var n := ColonAt(line);
      if n < |line| {
        ParsedValueIsBreakFree(line[n + 1..]);
      }
    }
  }

  lemma DefaultsAreBreakFree()
    ensures BreakFree("") && BreakFree("normal") && BreakFree("chat")
  {
  }

  /** Whatever the file, a header read from it has no line break in any value. */
  lemma ReadHeadersAreBreakFree(file: string)
    requires Read(file).Parsed?
    ensures HeaderBreakFree(Read(file).message.header)
  {
    var rest := DropNewlines(Universal(file)[3..]);
    var lines := SplitLines(rest[..FenceAt(rest)]);
    SplitLinesAreBreakFree(rest[..FenceAt(rest)]);
    FieldsAreBreakFree(lines);
    DefaultsAreBreakFree();
    RequiredAll(FieldsOf(lines));
  }

  /** The body a reader gets for a body that was written. */
  function StoredBody(body: string): string
  {
    DropNewlines(Universal(RStrip(body) + "\n"))
  }

  /** For every mark after `read_at:`, the file reads back exactly when each header value survives. */
  lemma FileReadsBackExactly(h: Header, mark: string, tail: string)
    requires BreakFree(mark)
    ensures Read(FileText(Entries(h, mark), tail))
            == Parsed(Message(h, ParseValue(mark), DropNewlines(Universal(tail))))
            <==> HeaderBreakFree(h) && HeaderReturns(h)
  {
    var es, body := Entries(h, mark), DropNewlines(Universal(tail));
    if HeaderBreakFree(h) {
      EntriesAreClean(h, mark);
      FileIsCutAtItsFences(es, tail);
      HeaderComesBackExactly(h, mark, body, FieldsOf(LinesOf(es)));
    } else if Read(FileText(es, tail)).Parsed? {
      ReadHeadersAreBreakFree(FileText(es, tail));
    }
  }

  /**
   * Printing and parsing give every header value back unchanged exactly when
   * no value has a line break and each is quoted or non-empty and trimmed.
   */
  lemma RoundTripExactly(h: Header, body: string)
    ensures Read(Render(h, body)) == Parsed(Message(h, None, StoredBody(body)))
            <==> HeaderBreakFree(h) && HeaderReturns(h)
  {
    NullReturnsNone();
    FileReadsBackExactly(h, "null", RStrip(body) + "\n");
  }

  lemma {:induction false} DropNewlinesDrops(s: string)
    ensures |DropNewlines(s)| <= |s|
    ensures DropNewlines(s) == s <==> s == "" || s[0] != '\n'
  {
    if s != "" && s[0] == '\n' {
      DropNewlinesDrops(s[1..]);
    }
  }

  /** Which bodies come back with one newline added and nothing else changed. */
  lemma BodyReturnsExactly(body: string)
    ensures StoredBody(body) == body + "\n"
            <==> body != "" && !IsSpace(body[|body| - 1]) && body[0] != '\n' && '\r' !in body
  {
    var trimmed := RStrip(body);
    RStripDropsSpaces(body);
    var u := Universal(trimmed + "\n");
    UniversalHasNoReturns(trimmed + "\n");
    DropNewlinesDrops(u);
    if '\r' !in trimmed {
      UniversalKeeps(trimmed + "\n", "");
      assert trimmed + "\n" + "" == trimmed + "\n";
      assert Universal("") == "";
      assert u == trimmed + "\n";
    }
    DroppedIsSuffix(u);
  }

  lemma {:induction false} DroppedIsSuffix(s: string)
    ensures forall c :: c in DropNewlines(s) ==> c in s
  {
    if s != "" && s[0] == '\n' {
      DroppedIsSuffix(s[1..]);
    }
  }
}
